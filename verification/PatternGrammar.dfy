/** The pattern language of source/core/MatchPat.cpp: its syntax tree, the grammar that reads a pattern
    string into that tree, and the relational meaning of a tree.  Nothing here mentions byte programs. */
module PatternGrammar {

  type Byte = b: int | 0 <= b < 256
  type Text = seq<Byte>

  datatype Quant = Once | Star | Plus | Cond
  datatype Atom = Chr(c: Byte) | Any | Eos | Set(body: Text)
  datatype Item = Item(atom: Atom, quant: Quant)
  datatype Option<T> = None | Some(value: T)

  // ---------------------------------------------------------------- lexical rules

  const BACKSLASH: Byte := 0x5C
  const CARET: Byte := 0x5E /* ^ */
  const TILDE: Byte := 0x7E /* ~ */
  const DASH: Byte := 0x2D
  const DOT: Byte := 0x2E /* . */
  const DOLLAR: Byte := 0x24 /* $ */
  const OPEN: Byte := 0x5B /* [ */
  const CLOSE: Byte := 0x5D /* ] */
  const STAR: Byte := 0x2A /* * */
  const PLUS: Byte := 0x2B /* + */
  const QUESTION: Byte := 0x3F /* ? */
  const BLANK: Byte := 0x20 /*   */

  /** Lexical class of a byte: 3 digits, 4 upper case, 5 lower case. */
  function LexClass(c: Byte): int {
    if c >= 128 then 0
    else if c <= 8 then 1
    else if c <= 13 then 2
    else if c <= 31 then 1
    else if c == 32 then 2
    else if c <= 47 then 6
    else if c <= 57 then 3
    else if c <= 64 then 6
    else if c <= 90 then 4
    else if c <= 96 then 6
    else if c <= 122 then 5
    else if c <= 126 then 6
    else 1
  }

  predicate IsDigit(c: Byte) { 0x30 /* 0 */ <= c <= 0x39 /* 9 */ }

  predicate IsHexLetter(c: Byte) { 0x41 /* A */ <= c <= 0x46 /* F */ }

  predicate IsHex(c: Byte) { IsDigit(c) || IsHexLetter(c) }

  function HexValue(c: Byte): (v: Byte)
    requires IsHex(c)
    ensures v < 16
  {
    if IsDigit(c) then c - 0x30 /* 0 */ else c - 0x41 /* A */ + 10
  }

  /** What a letter stands for after a backslash. */
  function LetterEscape(c: Byte): Byte {
    if c == 0x62 /* b */ then 8
    else if c == 0x66 /* f */ then 12
    else if c == 0x6E /* n */ then 10
    else if c == 0x72 /* r */ then 13
    else if c == 0x73 /* s */ then 32
    else if c == 0x74 /* t */ then 9
    else c
  }

  /** The byte written at the front of s, and how many bytes of s spell it.  A backslash that ends the
      pattern stands for itself; one or two upper-case hexadecimal digits after it give the byte's code. */
  function Unescape(s: Text): (r: (Byte, nat))
    requires s != []
    ensures 1 <= r.1 <= |s|
  {
    if s[0] != BACKSLASH || |s| == 1 then (s[0], 1)
    else if !IsHex(s[1]) then (LetterEscape(s[1]), 2)
    else if |s| == 2 || !IsHex(s[2]) then (HexValue(s[1]), 2)
    else (16 * HexValue(s[1]) + HexValue(s[2]), 3)
  }

  // ---------------------------------------------------------------- the grammar

  predicate IsQuant(c: Byte) { c == STAR || c == PLUS || c == QUESTION }

  function QuantOf(c: Byte): Quant
    requires IsQuant(c)
  {
    if c == STAR then Star else if c == PLUS then Plus else Cond
  }

  /** The bytes listed between brackets once escapes are resolved, and the length of their source
      text with the closing bracket, if there is one. */
  function ClassBody(s: Text): (r: (Text, nat))
    ensures r.1 <= |s|
    ensures |r.0| <= r.1
  {
    if s == [] then ([], 0)
    else if s[0] == CLOSE then ([], 1)
    else
      var (c, n) := Unescape(s);
      var (body, m) := ClassBody(s[n..]);
      ([c] + body, n + m)
  }

  /** One atom and the length of its source text.  `$` is special only when it ends the pattern. */
  function ParseAtom(s: Text): (r: (Atom, nat))
    requires s != []
    ensures 1 <= r.1 <= |s|
    ensures r.0.Eos? ==> r.1 == |s|
  {
    if s[0] == DOT then (Any, 1)
    else if s[0] == DOLLAR && |s| == 1 then (Eos, 1)
    else if s[0] == OPEN then var (body, n) := ClassBody(s[1..]); (Set(body), n + 1)
    else var (c, n) := Unescape(s); (Chr(c), n)
  }

  /** A pattern without its leading anchor: atoms, each with at most one quantifier.  A quantifier
      character that has no atom of its own to repeat stands for itself and cannot be repeated. */
  function ParseItems(s: Text): seq<Item>
    decreases |s|, 0
  {
    if s == [] then []
    else if IsQuant(s[0]) then [Item(Chr(s[0]), Once)] + ParseItems(s[1..])
    else var (a, n) := ParseAtom(s); ParseAfterAtom(a, s[n..])
  }

  function ParseAfterAtom(a: Atom, s: Text): seq<Item>
    decreases |s|, 1
  {
    if s != [] && IsQuant(s[0]) then [Item(a, QuantOf(s[0]))] + ParseItems(s[1..])
    else [Item(a, Once)] + ParseItems(s)
  }

  /** `^` anchors the pattern when it comes first. */
  predicate Anchored(pat: Text) { pat != [] && pat[0] == CARET }

  /** The items of a pattern as the grammar documents them. */
  function Items(pat: Text): seq<Item> {
    ParseItems(if Anchored(pat) then pat[1..] else pat)
  }

  // ---------------------------------------------------------------- meaning

  /** Does a class body open with a range such as a-z, both ends of one lexical class? */
  predicate StartsWithRange(s: Text) {
    |s| >= 3 && s[1] == DASH && s[0] <= s[2] && 3 <= LexClass(s[0]) <= 5 && LexClass(s[0]) == LexClass(s[2])
  }

  /** c is listed in the class text s, alone or inside a range. */
  predicate Listed(c: Byte, s: Text) {
    s != [] &&
    if StartsWithRange(s) then s[0] <= c <= s[2] || Listed(c, s[3..])
    else c == s[0] || Listed(c, s[1..])
  }

  /** Membership in a class: `~` first complements over all bytes, `^` first over those from the blank up. */
  predicate ClassContains(body: Text, c: Byte) {
    if body != [] && body[0] == CARET then c >= BLANK && !Listed(c, body[1..])
    else if body != [] && body[0] == TILDE then !Listed(c, body[1..])
    else Listed(c, body)
  }

  predicate Accepts(a: Atom, c: Byte) {
    match a
    case Chr(x) => c == x
    case Any => true
    case Eos => false
    case Set(body) => ClassContains(body, c)
  }

  predicate Allowed(q: Quant, k: nat) {
    match q
    case Once => k == 1
    case Star => true
    case Plus => k >= 1
    case Cond => k <= 1
  }

  /** k bytes from position i on, all accepted by a. */
  ghost predicate Run(a: Atom, text: Text, i: nat, k: nat) {
    i + k <= |text| && forall x :: i <= x < i + k ==> Accepts(a, text[x])
  }

  /** text[i..j] is spelled by the items, item n repeated ks[n] times.  `$` repeats nothing and
      holds only at the end of the text. */
  ghost predicate Spells(items: seq<Item>, ks: seq<nat>, text: Text, i: nat, j: nat) {
    if items == [] then ks == [] && i == j <= |text|
    else if ks == [] then false
    else if items[0].atom.Eos? then
      ks[0] == 0 && i == |text| && Spells(items[1..], ks[1..], text, i, j)
    else
      Allowed(items[0].quant, ks[0]) && Run(items[0].atom, text, i, ks[0])
      && Spells(items[1..], ks[1..], text, i + ks[0], j)
  }

  /** The language of the items, between two positions of a text. */
  ghost predicate Denotes(items: seq<Item>, text: Text, i: nat, j: nat) {
    exists ks :: Spells(items, ks, text, i, j)
  }

  predicate LexAtLeast(a: seq<nat>, b: seq<nat>) {
    |a| == |b| && (a == [] || a[0] > b[0] || (a[0] == b[0] && LexAtLeast(a[1..], b[1..])))
  }

  /** ks is the greediest way to spell any text from i on, and it ends at j. */
  ghost predicate Greediest(items: seq<Item>, ks: seq<nat>, text: Text, i: nat, j: nat) {
    && Spells(items, ks, text, i, j)
    && forall ks', j' :: Spells(items, ks', text, i, j') ==> LexAtLeast(ks, ks')
  }

  /** The match the language prescribes at i ends at j. */
  ghost predicate GreedyMatch(items: seq<Item>, text: Text, i: nat, j: nat) {
    exists ks :: Greediest(items, ks, text, i, j)
  }

  /** Nothing can be spelled from a position past the end of the text. */
  lemma {:induction false} SpellsStaysInside(items: seq<Item>, ks: seq<nat>, text: Text, i: nat, j: nat)
    requires Spells(items, ks, text, i, j)
    ensures |ks| == |items| && i <= j <= |text|
  {
    if items != [] {
      if items[0].atom.Eos? {
        SpellsStaysInside(items[1..], ks[1..], text, i, j);
      } else {
        SpellsStaysInside(items[1..], ks[1..], text, i + ks[0], j);
      }
    }
  }

  lemma {:induction false} LexAtLeastAntisymmetric(a: seq<nat>, b: seq<nat>)
    requires LexAtLeast(a, b) && LexAtLeast(b, a)
    ensures a == b
  {
    if a != [] {
      LexAtLeastAntisymmetric(a[1..], b[1..]);
      assert a == [a[0]] + a[1..] && b == [b[0]] + b[1..];
    }
  }

  lemma {:induction false} SpellsEnd(items: seq<Item>, ks: seq<nat>, text: Text, i: nat, j: nat, j': nat)
    requires Spells(items, ks, text, i, j) && Spells(items, ks, text, i, j')
    ensures j == j'
  {
    if items != [] {
      if items[0].atom.Eos? {
        SpellsEnd(items[1..], ks[1..], text, i, j, j');
      } else {
        SpellsEnd(items[1..], ks[1..], text, i + ks[0], j, j');
      }
    }
  }

  /** The greedy match at a position is unique, so stating it determines the answer. */
  lemma GreedyMatchUnique(items: seq<Item>, text: Text, i: nat, j: nat, j': nat)
    requires GreedyMatch(items, text, i, j) && GreedyMatch(items, text, i, j')
    ensures j == j'
  {
    var ks :| Greediest(items, ks, text, i, j);
    var ks' :| Greediest(items, ks', text, i, j');
    LexAtLeastAntisymmetric(ks, ks');
    SpellsEnd(items, ks, text, i, j, j');
  }

  /** The meaning is compositional: concatenating item lists concatenates languages. */
  lemma {:induction false} DenotesConcat(xs: seq<Item>, ys: seq<Item>, text: Text, i: nat, j: nat)
    ensures Denotes(xs + ys, text, i, j) <==> exists m: nat :: Denotes(xs, text, i, m) && Denotes(ys, text, m, j)
  {
    if ks :| Spells(xs + ys, ks, text, i, j) {
      var m := SplitSpelling(xs, ys, ks, text, i, j);
      assert Denotes(xs, text, i, m) && Denotes(ys, text, m, j);
    }
    if m: nat :| Denotes(xs, text, i, m) && Denotes(ys, text, m, j) {
      var k1 :| Spells(xs, k1, text, i, m);
      var k2 :| Spells(ys, k2, text, m, j);
      JoinSpelling(xs, ys, k1, k2, text, i, m, j);
    }
  }

  lemma {:induction false} SplitSpelling(xs: seq<Item>, ys: seq<Item>, ks: seq<nat>, text: Text, i: nat, j: nat) returns (m: nat)
    requires Spells(xs + ys, ks, text, i, j)
    ensures |xs| <= |ks| && Spells(xs, ks[..|xs|], text, i, m) && Spells(ys, ks[|xs|..], text, m, j)
  {
    if xs == [] {
      assert xs + ys == ys;
      SpellsStaysInside(ys, ks, text, i, j);
      m := i;
    } else {
      assert (xs + ys)[1..] == xs[1..] + ys;
      m := SplitSpelling(xs[1..], ys, ks[1..], text, if xs[0].atom.Eos? then i else i + ks[0], j);
      assert ks[..|xs|][1..] == ks[1..][..|xs| - 1];
      assert ks[1..][|xs| - 1..] == ks[|xs|..];
    }
  }

  lemma {:induction false} JoinSpelling(xs: seq<Item>, ys: seq<Item>, k1: seq<nat>, k2: seq<nat>, text: Text, i: nat, m: nat, j: nat)
    requires Spells(xs, k1, text, i, m) && Spells(ys, k2, text, m, j)
    ensures Spells(xs + ys, k1 + k2, text, i, j)
  {
    if xs == [] {
      assert xs + ys == ys && k1 + k2 == k2;
    } else {
      assert (xs + ys)[1..] == xs[1..] + ys && (k1 + k2)[1..] == k1[1..] + k2;
      JoinSpelling(xs[1..], ys, k1[1..], k2, text, if xs[0].atom.Eos? then i else i + k1[0], m, j);
    }
  }
}
