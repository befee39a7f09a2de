/** The pattern language in plain terms: which bytes are which, what classes and repetitions stand for, and that a
    quoted text matches exactly itself. */
module PatternLaws {
  import opened PatternGrammar
  import opened PatternCompiler
  import opened PatternMatcher

  // ---------------------------------------------------------------- bytes

  /** The special characters. */
  lemma SpecialBytes()
    ensures BACKSLASH == '\\' as int && CARET == '^' as int && TILDE == '~' as int && DASH == '-' as int && DOT == '.' as int
    ensures DOLLAR == '$' as int && OPEN == '[' as int && CLOSE == ']' as int && BLANK == ' ' as int
    ensures STAR == '*' as int && PLUS == '+' as int && QUESTION == '?' as int
  {}

  /** The three kinds of byte that ranges are made of: digits, capitals and small letters. */
  lemma Kinds(c: Byte)
    ensures LexClass(c) == 3 <==> '0' as int <= c <= '9' as int
    ensures LexClass(c) == 4 <==> 'A' as int <= c <= 'Z' as int
    ensures LexClass(c) == 5 <==> 'a' as int <= c <= 'z' as int
  {}

  lemma Quantifiers(c: Byte)
    ensures IsQuant(c) <==> c == '*' as int || c == '+' as int || c == '?' as int
    ensures c == '*' as int ==> QuantOf(c) == Star
    ensures c == '+' as int ==> QuantOf(c) == Plus
    ensures c == '?' as int ==> QuantOf(c) == Cond
  {}

  /** What a backslash before a byte makes of it: backspace, form feed, newline, return, blank and tab, the value of
      a hexadecimal digit, else the byte itself. */
  lemma Escapes(c: Byte)
    ensures var (b, n) := Unescape([BACKSLASH, c]);
            && n == 2
            && ('0' as int <= c <= '9' as int ==> b == c - '0' as int)
            && ('A' as int <= c <= 'F' as int ==> b == c - 'A' as int + 10)
            && (c == 'b' as int ==> b == 8) && (c == 'f' as int ==> b == 12) && (c == 'n' as int ==> b == '\n' as int)
            && (c == 'r' as int ==> b == '\r' as int) && (c == 's' as int ==> b == ' ' as int) && (c == 't' as int ==> b == '\t' as int)
            && (!Abbreviates(c) ==> b == c)
  {}

  /** A byte that stands for something else behind a backslash. */
  predicate Abbreviates(c: Byte) {
    || '0' as int <= c <= '9' as int || 'A' as int <= c <= 'F' as int
    || c == 'b' as int || c == 'f' as int || c == 'n' as int || c == 'r' as int || c == 's' as int || c == 't' as int
  }

  /** Two upper-case hexadecimal digits behind a backslash spell every byte, in one way. */
  lemma HexSpells(b: Byte)
    ensures Unescape([BACKSLASH, HexDigit(b / 16), HexDigit(b % 16)]) == (b, 3)
  {}

  function HexDigit(v: int): (c: Byte)
    requires 0 <= v < 16
  {
    if v < 10 then '0' as int + v else 'A' as int + (v - 10)
  }

  // ---------------------------------------------------------------- classes

  /** Both are digits, both capitals, or both small letters. */
  predicate Alike(x: Byte, y: Byte) {
    || ('0' as int <= x <= '9' as int && '0' as int <= y <= '9' as int)
    || ('A' as int <= x <= 'Z' as int && 'A' as int <= y <= 'Z' as int)
    || ('a' as int <= x <= 'z' as int && 'a' as int <= y <= 'z' as int)
  }

  lemma OneByte(c: Byte, x: Byte)
    ensures Listed(c, [x]) <==> c == x
  {
    assert [x][1..] == [];
  }

  lemma TwoBytes(c: Byte, x: Byte, y: Byte)
    ensures Listed(c, [x, y]) <==> c == x || c == y
  {
    assert [x, y][1..] == [y];
    OneByte(c, y);
  }

  /** A range between two bytes of one kind lists all from the first to the last; between others the dash and the
      bytes stand for themselves. */
  lemma Range(x: Byte, y: Byte, c: Byte)
    requires x != CARET && x != TILDE
    ensures ClassContains([x, DASH, y], c) <==> if Alike(x, y) && x <= y then x <= c <= y else c == x || c == DASH || c == y
  {
    Kinds(x);
    Kinds(y);
    hide LexClass;
    var s: Text := [x, DASH, y];
    assert s[3..] == [] && s[1..] == [DASH, y];
    assert StartsWithRange(s) <==> Alike(x, y) && x <= y;
    TwoBytes(c, DASH, y);
    assert !Listed(c, []);
    assert Listed(c, s) <==> if StartsWithRange(s) then x <= c <= y || Listed(c, s[3..]) else c == x || Listed(c, s[1..]);
  }

  /** A range at the front of a class adds its bytes. */
  lemma RangeAdds(x: Byte, y: Byte, body: Text, c: Byte)
    requires Alike(x, y) && x <= y
    ensures ClassContains([x, DASH, y] + body, c) <==> x <= c <= y || Listed(c, body)
  {
    Kinds(x);
    Kinds(y);
    hide LexClass;
    assert ([x, DASH, y] + body)[3..] == body;
    assert StartsWithRange([x, DASH, y] + body);
  }

  /** A mark at the front complements a class: `~` over all bytes, `^` over those from the blank up. */
  lemma Complements(body: Text, c: Byte)
    requires body == [] || (body[0] != CARET && body[0] != TILDE)
    ensures ClassContains([TILDE] + body, c) <==> !ClassContains(body, c)
    ensures ClassContains([CARET] + body, c) <==> c >= ' ' as int && !ClassContains(body, c)
  {
    hide Listed;
    assert ([TILDE] + body)[1..] == body && ([CARET] + body)[1..] == body;
  }

  /** What is put in front of a class adds to it. */
  lemma ClassAdds(x: Byte, body: Text, c: Byte)
    requires x != CARET && x != TILDE && (|body| < 2 || body[0] != DASH)
    ensures ClassContains([x] + body, c) <==> c == x || Listed(c, body)
  {
    assert ([x] + body)[1..] == body;
  }

  // ---------------------------------------------------------------- repetition

  /** A single byte, any byte, and the end of the text. */
  lemma SingleAtoms(c: Byte, text: Text, i: nat, j: nat)
    ensures Denotes([Item(Chr(c), Once)], text, i, j) <==> i < |text| && j == i + 1 && text[i] == c
    ensures Denotes([Item(Any, Once)], text, i, j) <==> i < |text| && j == i + 1
    ensures Denotes([Item(Eos, Once)], text, i, j) <==> i == j == |text|
  {
    OnceDenotes(Chr(c), text, i, j);
    OnceDenotes(Any, text, i, j);
    var items := [Item(Eos, Once)];
    assert items[1..] == [];
    if i == j == |text| {
      var ks: seq<nat> := [0];
      assert ks[1..] == [] && Spells(items[1..], [], text, i, j);
      assert Spells(items, ks, text, i, j);
    }
    if ks :| Spells(items, ks, text, i, j) {
      assert Spells(items[1..], ks[1..], text, i, j);
    }
  }

  /** One item: some allowed number of bytes that its atom accepts. */
  lemma ItemDenotes(a: Atom, q: Quant, text: Text, i: nat, j: nat)
    requires !a.Eos?
    ensures Denotes([Item(a, q)], text, i, j) <==> i <= j && Allowed(q, j - i) && Run(a, text, i, j - i)
  {
    var items := [Item(a, q)];
    assert items[1..] == [];
    if i <= j && Allowed(q, j - i) && Run(a, text, i, j - i) {
      var ks: seq<nat> := [j - i];
      assert ks[1..] == [] && Spells(items[1..], ks[1..], text, j, j);
      assert Spells(items, ks, text, i, j);
    }
    if ks :| Spells(items, ks, text, i, j) {
      assert Spells(items[1..], ks[1..], text, i + ks[0], j);
    }
  }

  lemma OnceDenotes(a: Atom, text: Text, i: nat, j: nat)
    requires !a.Eos?
    ensures Denotes([Item(a, Once)], text, i, j) <==> i < |text| && j == i + 1 && Accepts(a, text[i])
  {
    ItemDenotes(a, Once, text, i, j);
  }

  /** `*`: nothing, or one and then `*`.  `+`: one and then `*`.  `?`: nothing or one. */
  lemma Repetitions(a: Atom, text: Text, i: nat, j: nat)
    requires !a.Eos? && i <= |text|
    ensures Denotes([Item(a, Star)], text, i, j)
            <==> i == j || (i < |text| && Accepts(a, text[i]) && Denotes([Item(a, Star)], text, i + 1, j))
    ensures Denotes([Item(a, Plus)], text, i, j)
            <==> i < |text| && Accepts(a, text[i]) && Denotes([Item(a, Star)], text, i + 1, j)
    ensures Denotes([Item(a, Cond)], text, i, j) <==> i == j || (j == i + 1 <= |text| && Accepts(a, text[i]))
  {
    hide Denotes, Accepts;
    ItemDenotes(a, Star, text, i, j);
    ItemDenotes(a, Star, text, i + 1, j);
    ItemDenotes(a, Plus, text, i, j);
    ItemDenotes(a, Cond, text, i, j);
  }

  /** A repetition at the end of a pattern takes all it can. */
  lemma TakesAll(a: Atom, text: Text, i: nat, j: nat)
    requires !a.Eos? && GreedyMatch([Item(a, Star)], text, i, j)
    ensures j == |text| || (j < |text| && !Accepts(a, text[j]))
  {
    var items := [Item(a, Star)];
    var ks :| Greediest(items, ks, text, i, j);
    assert items[1..] == [];
    assert Spells(items[1..], ks[1..], text, i + ks[0], j);
    if j < |text| && Accepts(a, text[j]) {
      var more: seq<nat> := [ks[0] + 1];
      assert more[1..] == [] && Spells(items[1..], more[1..], text, j + 1, j + 1);
      assert Run(a, text, i, more[0]);
      assert Spells(items, more, text, i, j + 1);
      assert !LexAtLeast(ks, more);
    }
  }

  // ---------------------------------------------------------------- reading

  /** A backslash at the end stands for itself, and so does every byte that no backslash precedes. */
  lemma PlainBytes(c: Byte, rest: Text)
    ensures Unescape([BACKSLASH]) == (BACKSLASH, 1)
    ensures c != BACKSLASH ==> Unescape([c] + rest) == (c, 1)
  {}

  /** A class reads up to its bracket. */
  lemma {:induction false} ClassReads(body: Text, rest: Text)
    requires CLOSE !in body && BACKSLASH !in body
    ensures ClassBody(body + [CLOSE] + rest) == (body, |body| + 1)
  {
    var s := body + [CLOSE] + rest;
    if body == [] {
      assert s[0] == CLOSE;
    } else {
      assert s[1..] == body[1..] + [CLOSE] + rest && s[0] == body[0];
      ClassReads(body[1..], rest);
      assert Unescape(s) == (s[0], 1);
      assert [body[0]] + body[1..] == body;
    }
  }

  /** A class with a quantifier is one item. */
  lemma ClassParses(body: Text, q: Byte)
    requires CLOSE !in body && BACKSLASH !in body && IsQuant(q)
    ensures ParseItems([OPEN] + body + [CLOSE, q]) == [Item(Set(body), QuantOf(q))]
  {
    var s := [OPEN] + body + [CLOSE, q];
    ClassReads(body, [q]);
    assert s[1..] == body + [CLOSE] + [q];
    assert ParseAtom(s) == (Set(body), |body| + 2) && s[|body| + 2..] == [q];
    RepeatedParses(s, Set(body), |body| + 2, q);
  }

  lemma RepeatedParses(s: Text, a: Atom, n: nat, q: Byte)
    requires s != [] && !IsQuant(s[0]) && ParseAtom(s) == (a, n) && s[n..] == [q] && IsQuant(q)
    ensures ParseItems(s) == [Item(a, QuantOf(q))]
  {
    assert [q][1..] == [] && ParseItems([]) == [];
  }

  lemma AloneParses(s: Text, a: Atom)
    requires s != [] && !IsQuant(s[0]) && ParseAtom(s) == (a, |s|)
    ensures ParseItems(s) == [Item(a, Once)]
  {
    assert s[|s|..] == [] && ParseItems([]) == [];
  }

  /** A byte that is not special, a dot, and a dollar sign at the end. */
  lemma AtomsParse(c: Byte, q: Byte)
    requires IsQuant(q)
    ensures !Special(c) ==> ParseItems([c]) == [Item(Chr(c), Once)] && ParseItems([c, q]) == [Item(Chr(c), QuantOf(q))]
    ensures ParseItems(['.' as int]) == [Item(Any, Once)] && ParseItems(['.' as int, q]) == [Item(Any, QuantOf(q))]
    ensures ParseItems(['$' as int]) == [Item(Eos, Once)]
    ensures ParseItems([q]) == [Item(Chr(q), Once)]
  {
    hide ParseItems;
    if !Special(c) {
      AloneParses([c], Chr(c));
      assert [c, q][1..] == [q];
      RepeatedParses([c, q], Chr(c), 1, q);
    }
    AloneParses(['.' as int], Any);
    assert ['.' as int, q][1..] == [q];
    RepeatedParses(['.' as int, q], Any, 1, q);
    AloneParses(['$' as int], Eos);
    BareQuantifier(q);
  }

  lemma BareQuantifier(q: Byte)
    requires IsQuant(q)
    ensures ParseItems([q]) == [Item(Chr(q), Once)]
  {
    assert [q][1..] == [] && ParseItems([]) == [];
  }

  /** A range with `+`, such as `[a-z]+`, matches from i to j exactly when there is a byte and all are in the range. */
  lemma RangeMatches(x: Byte, y: Byte, text: Text, i: nat, j: nat)
    requires Alike(x, y) && x <= y
    ensures Denotes(Items(['[' as int, x, '-' as int, y, ']' as int, '+' as int]), text, i, j)
            <==> i < j <= |text| && forall k :: i <= k < j ==> x <= text[k] <= y
  {
    var body: Text := [x, DASH, y];
    var pat: Text := ['[' as int, x, '-' as int, y, ']' as int, '+' as int];
    assert pat == [OPEN] + body + [CLOSE, PLUS] && !Anchored(pat);
    ClassParses(body, PLUS);
    ItemDenotes(Set(body), Plus, text, i, j);
    forall k | 0 <= k < |text| ensures Accepts(Set(body), text[k]) <==> x <= text[k] <= y {
      Range(x, y, text[k]);
    }
    hide Denotes, ParseItems, ClassContains;
  }

  // ---------------------------------------------------------------- quoting

  /** Bytes that mean something outside a class. */
  predicate Special(c: Byte) {
    || c == '\\' as int || c == '^' as int || c == '.' as int || c == '$' as int || c == '[' as int
    || c == '*' as int || c == '+' as int || c == '?' as int
  }

  /** A backslash before every special byte. */
  function Quote(text: Text): Text {
    if text == [] then [] else (if Special(text[0]) then [BACKSLASH, text[0]] else [text[0]]) + Quote(text[1..])
  }

  function Plain(text: Text): seq<Item> {
    if text == [] then [] else [Item(Chr(text[0]), Once)] + Plain(text[1..])
  }

  lemma QuoteStart(text: Text)
    ensures Quote(text) == [] || !IsQuant(Quote(text)[0])
  {}

  lemma {:induction false} QuoteParses(text: Text)
    ensures ParseItems(Quote(text)) == Plain(text)
  {
    if text == [] {
    } else {
      var c, rest, q := text[0], Quote(text[1..]), Quote(text);
      QuoteParses(text[1..]);
      QuoteStart(text[1..]);
      QuoteStart(text);
      QuotedByte(c, rest);
      hide ParseItems;
      var (a, n) := ParseAtom(q);
      assert q[n..] == rest;
      OneMore(q, a, n);
    }
  }

  lemma OneMore(s: Text, a: Atom, n: nat)
    requires s != [] && !IsQuant(s[0]) && ParseAtom(s) == (a, n) && (s[n..] == [] || !IsQuant(s[n..][0]))
    ensures ParseItems(s) == [Item(a, Once)] + ParseItems(s[n..])
  {}

  lemma QuotedByte(c: Byte, rest: Text)
    ensures var q := (if Special(c) then [BACKSLASH, c] else [c]) + rest;
            ParseAtom(q) == (Chr(c), if Special(c) then 2 else 1) && q[if Special(c) then 2 else 1..] == rest
  {
    hide ClassBody;
    if Special(c) {
      assert ([BACKSLASH, c] + rest)[2..] == rest && ([BACKSLASH, c] + rest)[1] == c;
    } else {
      assert ([c] + rest)[1..] == rest;
    }
  }

  lemma {:induction false} PlainDenotes(word: Text, text: Text, i: nat, j: nat)
    ensures Denotes(Plain(word), text, i, j) <==> j == i + |word| <= |text| && text[i..j] == word
  {
    if word == [] {
      assert Spells([], [], text, i, j) <==> i == j <= |text|;
      if i == j <= |text| {
        assert Spells(Plain(word), [], text, i, j);
      }
    } else {
      var items := Plain(word);
      PlainDenotes(word[1..], text, i + 1, j);
      DenotesConcat([items[0]], items[1..], text, i, j);
      assert [items[0]] + items[1..] == items;
      hide Denotes, Accepts;
      forall m: nat ensures Denotes([items[0]], text, i, m) <==> i < |text| && m == i + 1 && text[i] == word[0] {
        SingleAtoms(word[0], text, i, m);
      }
      if j == i + |word| <= |text| {
        assert text[i..j] == [text[i]] + text[i + 1..j] && word == [word[0]] + word[1..];
        if text[i..j] == word {
          assert text[i] == text[i..j][0] && text[i + 1..j] == text[i..j][1..];
          assert Denotes([items[0]], text, i, i + 1);
        }
      }
    }
  }

  /** A quoted text, as a pattern, is not anchored, has no class, and matches from i to j exactly when the text stands
      there. */
  lemma QuotedMatchesItself(word: Text, text: Text, i: nat, j: nat)
    ensures !Anchored(Quote(word)) && ClassesFit(Quote(word)) && Items(Quote(word)) == Plain(word)
    ensures Denotes(Items(Quote(word)), text, i, j) <==> j == i + |word| <= |text| && text[i..j] == word
  {
    hide ParseItems, Denotes;
    QuoteParses(word);
    PlainDenotes(word, text, i, j);
    PlainAtoms(word);
    assert Quote(word)[0..] == Quote(word);
  }

  lemma {:induction false} PlainAtoms(word: Text)
    ensures forall it <- Plain(word) :: it.atom.Chr? && it.quant == Once
  {
    if word != [] {
      PlainAtoms(word[1..]);
    }
  }

  /** The word stands at position k of the text. */
  predicate StandsAt(word: Text, text: Text, k: nat) { k + |word| <= |text| && text[k..k + |word|] == word }

  /** Searching for a quoted text finds its first occurrence from the offset on, if there is one. */
  lemma QuotedSearch(word: Text, text: Text, offset: int, i: nat, past: int)
    requires Outcome(Quote(word), text, offset, i, past)
    ensures if past == -1 then forall k: nat :: Max(0, offset) <= k < |text| ==> !StandsAt(word, text, k)
            else
              && Max(0, offset) <= i < |text| && past == i + |word| && StandsAt(word, text, i)
              && forall k: nat :: Max(0, offset) <= k < i ==> !StandsAt(word, text, k)
  {
    var pat := Quote(word);
    QuotedMatchesItself(word, text, 0, 0);
    hide Quote, Items;
    forall k: nat | Max(0, offset) <= k < |text| ensures NoMatch(Items(pat), text, k) <==> !StandsAt(word, text, k) {
      QuotedAt(word, text, k);
    }
    if past != -1 {
      var ks :| Greediest(Items(pat), ks, text, i, past);
      QuotedMatchesItself(word, text, i, past);
      assert Denotes(Items(pat), text, i, past);
    }
  }

  lemma QuotedAt(word: Text, text: Text, k: nat)
    ensures NoMatch(Items(Quote(word)), text, k) <==> !StandsAt(word, text, k)
  {
    var items := Items(Quote(word));
    QuotedMatchesItself(word, text, k, k + |word|);
    hide Items, Quote;
    if StandsAt(word, text, k) {
      var ks :| Spells(items, ks, text, k, k + |word|);
    } else {
      forall ks, j ensures !Spells(items, ks, text, k, j) {
        if Spells(items, ks, text, k, j) {
          assert Denotes(items, text, k, j);
          QuotedMatchesItself(word, text, k, j);
        }
      }
    }
  }
}
