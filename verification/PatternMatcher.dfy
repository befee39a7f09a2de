/** The backtracking matcher of source/core/MatchPat.cpp: `AMatch` interprets the byte program with greedy
    repetition and `MatchPat` scans for a match.  Both are proved against the meaning in PatternGrammar. */
module PatternMatcher {
  import opened PatternGrammar
  import opened PatternCompiler

  // ---------------------------------------------------------------- InSet

  /** InSet: membership of c in a class text. */
  method InSet(c: Byte, cls: Text) returns (found: bool)
    ensures found == ClassContains(cls, c)
  {
    hide LexClass, Listed, ClassContains;
    ClassSense(cls, c);
    var s, se, sense := 0, |cls|, false;
    if s < se && (cls[s] == CARET || cls[s] == TILDE) {
      if c < BLANK && cls[s] == CARET {
        return false;
      }
      s := s + 1;
      sense := true;
    }
    while s < se
      invariant 0 <= s <= se
      invariant ClassContains(cls, c) == (sense != Listed(c, cls[s..]))
      decreases se - s
    {
      ListedStep(c, cls, s);
      if s < se - 2 && cls[s + 1] == DASH && cls[s] <= cls[s + 2]
         && 3 <= LexClass(cls[s]) <= 5 && LexClass(cls[s]) == LexClass(cls[s + 2]) {
        if cls[s] <= c <= cls[s + 2] {
          return !sense;
        }
        s := s + 3;
      } else if c == cls[s] {
        return !sense;
      } else {
        s := s + 1;
      }
    }
    ListedNothing(c, cls);
    return sense;
  }

  /** The complement marks of a class. */
  lemma ClassSense(cls: Text, c: Byte)
    ensures cls != [] && cls[0] == CARET && c < BLANK ==> !ClassContains(cls, c)
    ensures cls != [] && ((cls[0] == CARET && c >= BLANK) || cls[0] == TILDE) ==>
              ClassContains(cls, c) == !Listed(c, cls[1..])
    ensures cls == [] || (cls[0] != CARET && cls[0] != TILDE) ==> ClassContains(cls, c) == Listed(c, cls[0..])
  {}

  /** One step of the scan of a class. */
  lemma ListedStep(c: Byte, cls: Text, i: nat)
    requires i < |cls|
    ensures if i + 2 < |cls| && cls[i + 1] == DASH && cls[i] <= cls[i + 2]
               && 3 <= LexClass(cls[i]) <= 5 && LexClass(cls[i]) == LexClass(cls[i + 2])
            then Listed(c, cls[i..]) == (cls[i] <= c <= cls[i + 2] || Listed(c, cls[i + 3..]))
            else Listed(c, cls[i..]) == (c == cls[i] || Listed(c, cls[i + 1..]))
  {}

  lemma ListedNothing(c: Byte, cls: Text)
    ensures !Listed(c, cls[|cls|..])
  {}

  // ---------------------------------------------------------------- AMatch

  /** Items the compiler can produce whose class bodies fit the one-byte length. */
  predicate Admissible(items: seq<Item>) {
    forall it <- items :: (it.atom.Eos? ==> it.quant == Once) && (it.atom.Set? ==> |it.atom.body| <= 254)
  }

  predicate IsRepeat(op: Byte, base: Byte) {
    op == base + M_STAR || op == base + M_PLUS || op == base + M_COND
  }

  /** The opcodes AMatch's switch has a case for. */
  predicate IsOpcode(op: Byte) {
    op == M_EOF || op == M_EOS
    || op == M_CHR || IsRepeat(op, M_CHR) || op == M_ANY || IsRepeat(op, M_ANY) || op == M_CCL || IsRepeat(op, M_CCL)
  }

  /** The bytes from p on are the program of the items. */
  ghost predicate Decodes(prog: Text, p: nat, items: seq<Item>) {
    p <= |prog| && prog[p..] == Encode(items) + [M_EOF]
  }

  /** No text can be spelled by the items from position i on. */
  ghost predicate NoMatch(items: seq<Item>, text: Text, i: nat) {
    forall ks, j :: !Spells(items, ks, text, i, j)
  }

  /** The answer of a matcher that starts at i: -1, or the end of the greedy match. */
  ghost predicate Answers(items: seq<Item>, text: Text, i: nat, t: int) {
    if t == -1 then NoMatch(items, text, i) else 0 <= t && GreedyMatch(items, text, i, t)
  }

  /** The operand of an atom stands at p; the length byte of a class that fits tells how long it is. */
  ghost predicate OperandAt(prog: Text, p: nat, a: Atom) {
    && p + |Operand(a)| <= |prog| && prog[p..p + |Operand(a)|] == Operand(a)
    && (a.Set? ==> Operand(a)[0] == |Operand(a)|)
  }

  /** The opcode determines the kind of item. */
  lemma OpcodeTells(it: Item)
    requires it.atom.Eos? ==> it.quant == Once
    ensures var op := Opcode(it);
            && IsOpcode(op) && op != M_EOF && op != M_BOL
            && (it.quant == Once <==> op == M_CHR || op == M_ANY || op == M_CCL || op == M_EOS)
            && (it.atom.Chr? <==> op == M_CHR || IsRepeat(op, M_CHR))
            && (it.atom.Any? <==> op == M_ANY || IsRepeat(op, M_ANY))
            && (it.atom.Set? <==> op == M_CCL || IsRepeat(op, M_CCL))
            && (it.atom.Eos? <==> op == M_EOS)
  {}

  /** What stands at p when the first item of a program has been decoded. */
  ghost predicate Decoded(prog: Text, p: nat, items: seq<Item>)
    requires items != []
  {
    var a := items[0].atom;
    && p < |prog|
    && prog[p] == Opcode(items[0])
    && OperandAt(prog, p + 1, a)
    && Decodes(prog, p + 1 + |Operand(a)|, items[1..]) && Admissible(items[1..])
  }

  lemma OperandFits(a: Atom)
    ensures a.Set? && |a.body| <= 254 ==> Operand(a) != [] && Operand(a)[0] == |Operand(a)|
  {}

  /** Reading the first instruction of a program. */
  lemma DecodeStep(prog: Text, p: nat, items: seq<Item>)
    requires Decodes(prog, p, items) && Admissible(items)
    ensures p < |prog|
    ensures items == [] ==> prog[p] == M_EOF
    ensures items != [] ==> Decoded(prog, p, items)
  {
    if items != [] {
      DecodeItem(prog, p, items);
      AdmissibleSplit(items);
      hide Opcode, Decodes, Operand, Admissible;
      OperandFits(items[0].atom);
    } else {
      assert prog[p] == prog[p..][0];
    }
  }

  lemma DecodeItem(prog: Text, p: nat, items: seq<Item>)
    requires Decodes(prog, p, items) && items != []
    ensures p < |prog| && prog[p] == Opcode(items[0])
    ensures var arg := Operand(items[0].atom);
            p + 1 + |arg| <= |prog| && prog[p + 1..p + 1 + |arg|] == arg && Decodes(prog, p + 1 + |arg|, items[1..])
  {
    hide Opcode, Encode, Operand;
    EncodeFirst(items);
    Peel(prog, p, Opcode(items[0]), Operand(items[0].atom), Encode(items[1..]));
  }

  lemma AdmissibleSplit(items: seq<Item>)
    requires Admissible(items) && items != []
    ensures items[0].atom.Eos? ==> items[0].quant == Once
    ensures items[0].atom.Set? ==> |items[0].atom.body| <= 254
    ensures Admissible(items[1..])
  {}

  /** What the interpreter can tell from the bytes. */
  lemma DecodedTells(prog: Text, p: nat, items: seq<Item>)
    requires items != [] && Decoded(prog, p, items) && (items[0].atom.Eos? ==> items[0].quant == Once)
    ensures IsOpcode(prog[p]) && prog[p] != M_EOF && prog[p] != M_BOL
    ensures p + 1 + |Operand(items[0].atom)| <= |prog|
    ensures items[0].atom.Chr? ==> |Operand(items[0].atom)| == 1 && prog[p + 1] == items[0].atom.c
    ensures items[0].atom.Set? ==> 1 <= |Operand(items[0].atom)| == prog[p + 1]
    ensures items[0].atom.Any? || items[0].atom.Eos? ==> Operand(items[0].atom) == []
  {}

  lemma EncodeFirst(items: seq<Item>)
    requires items != []
    ensures Encode(items) == [Opcode(items[0])] + Operand(items[0].atom) + Encode(items[1..])
  {}

  lemma Peel(prog: Text, p: nat, op: Byte, arg: Text, rest: Text)
    requires p <= |prog| && prog[p..] == [op] + arg + rest + [M_EOF]
    ensures p + 1 + |arg| <= |prog| && prog[p] == op
    ensures prog[p + 1..p + 1 + |arg|] == arg && prog[p + 1 + |arg|..] == rest + [M_EOF]
  {}

  // ---------------------------------------------------------------- how an answer is composed

  /** An item that is matched exactly once passes the answer for the rest on. */
  lemma OnceAnswers(items: seq<Item>, text: Text, i: nat, t: int)
    requires items != [] && !items[0].atom.Eos? && items[0].quant == Once
    requires if i < |text| && Accepts(items[0].atom, text[i]) then Answers(items[1..], text, i + 1, t) else t == -1
    ensures Answers(items, text, i, t)
  {
    if t != -1 {
      var ks :| Greediest(items[1..], ks, text, i + 1, t);
      assert Greediest(items, [1] + ks, text, i, t) by {
        assert ([1] + ks)[1..] == ks;
        assert Run(items[0].atom, text, i, 1);
      }
    }
  }

  lemma EosAnswers(items: seq<Item>, text: Text, i: nat, t: int)
    requires items != [] && items[0].atom.Eos?
    requires if i == |text| then Answers(items[1..], text, i, t) else t == -1
    ensures Answers(items, text, i, t)
  {
    if t != -1 {
      var ks :| Greediest(items[1..], ks, text, i, t);
      assert Greediest(items, [0] + ks, text, i, t) by {
        assert ([0] + ks)[1..] == ks;
      }
    }
  }

  /** k repetitions of the first item are possible at i. */
  ghost predicate Viable(it: Item, text: Text, i: nat, k: nat) {
    Allowed(it.quant, k) && Run(it.atom, text, i, k)
  }

  /** The first success while counting down is the greedy match. */
  lemma RepeatAnswers(items: seq<Item>, text: Text, i: nat, k: nat, t: int)
    requires items != [] && !items[0].atom.Eos?
    requires forall k': nat :: k' > k && Viable(items[0], text, i, k') ==> NoMatch(items[1..], text, i + k')
    requires Viable(items[0], text, i, k) && t != -1 && Answers(items[1..], text, i + k, t)
    ensures Answers(items, text, i, t)
  {
    var ks :| Greediest(items[1..], ks, text, i + k, t);
    assert ([k] + ks)[1..] == ks;
    forall ks', j' | Spells(items, ks', text, i, j') ensures LexAtLeast([k] + ks, ks') {
      assert Viable(items[0], text, i, ks'[0]) && Spells(items[1..], ks'[1..], text, i + ks'[0], j');
      assert ks'[0] <= k;
      SpellsStaysInside(items, ks', text, i, j');
      SpellsStaysInside(items[1..], ks, text, i + k, t);
    }
    assert Greediest(items, [k] + ks, text, i, t);
  }

  lemma RepeatFails(items: seq<Item>, text: Text, i: nat)
    requires items != [] && !items[0].atom.Eos?
    requires forall k: nat :: Viable(items[0], text, i, k) ==> NoMatch(items[1..], text, i + k)
    ensures NoMatch(items, text, i)
  {
    forall ks, j ensures !Spells(items, ks, text, i, j) {
      if Spells(items, ks, text, i, j) {
        assert Viable(items[0], text, i, ks[0]);
      }
    }
  }

  /** An answer for xs at i is one for ys at j. */
  ghost predicate Passes(xs: seq<Item>, i: nat, ys: seq<Item>, j: nat, text: Text) {
    forall t :: Answers(xs, text, i, t) ==> Answers(ys, text, j, t)
  }

  lemma PassOn(xs: seq<Item>, i: nat, ys: seq<Item>, j: nat, text: Text, t: int)
    requires Passes(xs, i, ys, j, text) && Answers(xs, text, i, t)
    ensures Answers(ys, text, j, t)
  {}

  lemma PassSelf(xs: seq<Item>, i: nat, text: Text)
    ensures Passes(xs, i, xs, i, text)
  {}

  lemma OncePasses(items: seq<Item>, text: Text, i: nat, ys: seq<Item>, j: nat)
    requires items != [] && !items[0].atom.Eos? && items[0].quant == Once
    requires i < |text| && Accepts(items[0].atom, text[i]) && Passes(items, i, ys, j, text)
    ensures Passes(items[1..], i + 1, ys, j, text)
  {
    forall t | Answers(items[1..], text, i + 1, t) ensures Answers(ys, text, j, t) {
      OnceAnswers(items, text, i, t);
    }
  }

  lemma EosPasses(items: seq<Item>, text: Text, i: nat, ys: seq<Item>, j: nat)
    requires items != [] && items[0].atom.Eos? && i == |text| && Passes(items, i, ys, j, text)
    ensures Passes(items[1..], i, ys, j, text)
  {
    forall t | Answers(items[1..], text, i, t) ensures Answers(ys, text, j, t) {
      EosAnswers(items, text, i, t);
    }
  }

  /** The end of a text spelled from i lies between i and the end of the text. */
  lemma AnswerInside(items: seq<Item>, text: Text, i: nat, t: int)
    requires Answers(items, text, i, t) && t != -1
    ensures i <= t <= |text|
  {
    var ks :| Greediest(items, ks, text, i, t);
    SpellsStaysInside(items, ks, text, i, t);
  }

  lemma EofAnswers(text: Text, i: nat, ys: seq<Item>, j: nat)
    requires Passes([], i, ys, j, text)
    ensures Answers(ys, text, j, if i > |text| then -1 else i)
  {
    if i <= |text| {
      assert Spells([], [], text, i, i);
      assert Greediest([], [], text, i, i);
    }
  }

  // ---------------------------------------------------------------- AMatch

  function Max(x: int, y: int): int { if x < y then y else x }

  /** `while (s < se && *s == *p) s++`, or with InSet for a class. */
  method Span(prog: Text, p: nat, op: Byte, text: Text, s0: nat, ghost a: Atom) returns (s: nat)
    requires OperandAt(prog, p, a) && if op == M_CHR then a.Chr? else a.Set?
    ensures s0 <= s && (s0 <= |text| ==> Run(a, text, s0, s - s0))
    ensures s >= |text| || !Accepts(a, text[s])
    ensures s0 > |text| ==> s == s0
  {
    s := s0;
    while s < |text|
      invariant s0 <= s <= Max(s0, |text|)
      invariant forall x :: s0 <= x < s ==> Accepts(a, text[x])
      decreases |text| - s
    {
      var more := AtomMatches(prog, p, op, text[s], a);
      if !more {
        break;
      }
      s := s + 1;
    }
  }

  /** `*s == *p`, or `InSet(*s, p + 1, p + *p)` for a class. */
  method AtomMatches(prog: Text, p: nat, op: Byte, c: Byte, ghost a: Atom) returns (yes: bool)
    requires OperandAt(prog, p, a) && if op == M_CHR then a.Chr? else a.Set?
    ensures yes == Accepts(a, c)
  {
    assert prog[p] == Operand(a)[0];
    if op == M_CHR {
      yes := c == prog[p];
    } else {
      assert prog[p + 1..p + prog[p]] == prog[p..p + |Operand(a)|][1..] == a.body;
      yes := InSet(c, prog[p + 1..p + prog[p]]);
    }
  }

  /** The candidates s, s-1, ..., sSave are those of the viable repetitions from s0, except that `.?` may
      also offer the position just past the end of the text. */
  ghost predicate Candidates(it: Item, text: Text, s0: nat, sSave: nat, s: nat) {
    && (forall k: nat :: Viable(it, text, s0, k) ==> sSave <= s0 + k <= s)
    && (forall k: nat :: sSave <= s0 + k <= s && s0 + k <= |text| ==> Viable(it, text, s0, k))
    && s0 <= sSave
  }

  /** The branches of AMatch's switch for repeated atoms: where the star loop starts and ends. */
  method Extent(prog: Text, p: nat, op: Byte, text: Text, s0: nat, ghost it: Item) returns (sSave: nat, s: nat)
    requires OperandAt(prog, p, it.atom) && !it.atom.Eos? && it.quant != Once && op == Opcode(it)
    ensures Candidates(it, text, s0, sSave, s)
  {
    OpcodeTells(it);
    var se := |text|;
    sSave, s := s0, s0;
    if op == M_ANY + M_STAR {
      s := se;
    } else if op == M_ANY + M_PLUS {
      sSave, s := s0 + 1, se;
    } else if op == M_ANY + M_COND {
      s := s0 + 1;
    } else if op == M_CHR + M_COND || op == M_CCL + M_COND {
      if s < se {
        var yes := AtomMatches(prog, p, op - M_COND, text[s], it.atom);
        if yes {
          s := s + 1;
        }
      }
    } else {
      var base := if op == M_CHR + M_STAR || op == M_CHR + M_PLUS then M_CHR else M_CCL;
      s := Span(prog, p, base, text, s0, it.atom);
      if op == base + M_PLUS {
        // The source returns null when s == sSave; an empty range of candidates has the same effect.
        sSave := sSave + 1;
      }
    }
  }

  /** AMatch's star loop: tries the rest of the program at x, x-1, ..., sSave, where the repeated item
      items[0] began at i. */
  method StarLoop(prog: Text, p: nat, text: Text, sSave: nat, x: nat, ghost items: seq<Item>, ghost i: nat) returns (t: int)
    requires items != [] && !items[0].atom.Eos? && Candidates(items[0], text, i, sSave, x)
    requires Decodes(prog, p, items[1..]) && Admissible(items[1..])
    ensures Answers(items, text, i, t)
    decreases |prog| - p, 1
  {
    ghost var it, rest := items[0], items[1..];
    DecodeStep(prog, p, rest);
    if rest != [] {
      DecodedTells(prog, p, rest);
    }
    var s: int := x;
    while s >= sSave
      invariant s <= x
      invariant forall k: nat :: i + k > s && Viable(it, text, i, k) ==> NoMatch(rest, text, i + k)
      decreases s
    {
      t := AMatch(prog, p, text, s, rest);
      if t != -1 {
        AnswerInside(rest, text, s, t);
        RepeatAnswers(items, text, i, s - i, t);
        return;
      }
      s := s - 1;
    }
    RepeatFails(items, text, i);
    return -1;
  }

  /** AMatch: runs the program from p0 on at text position s0.  -1 stands for a null pointer.
      An opcode without a case, which only a quantified anchor produces, fails. */
  method AMatch(prog: Text, p0: nat, text: Text, s0: nat, ghost items: seq<Item>) returns (t: int)
    requires p0 < |prog|
    requires IsOpcode(prog[p0]) ==> Decodes(prog, p0, items) && Admissible(items)
    ensures if IsOpcode(prog[p0]) then Answers(items, text, s0, t) else t == -1
    decreases |prog| - p0, 0
  {
    hide Answers, Passes, Decodes, Operand, OperandAt;
    var p: nat, s: nat, se := p0, s0, |text|;
    ghost var rest := items;
    if !IsOpcode(prog[p]) {
      return -1;
    }
    PassSelf(items, s0, text);
    while true
      invariant p0 <= p && Decodes(prog, p, rest) && Admissible(rest)
      invariant Passes(rest, s, items, s0, text)
      decreases |prog| - p
    {
      DecodeStep(prog, p, rest);
      var op := prog[p];
      p := p + 1;
      if op == M_EOF {
        t := if s > se then -1 else s;
        EofAnswers(text, s, items, s0);
        return;
      }
      ghost var it, here := rest[0], rest;
      OpcodeTells(it);
      DecodedTells(prog, p - 1, here);
      rest := rest[1..];
      if op == M_EOS {
        if s != se {
          EosAnswers(here, text, s, -1);
          PassOn(here, s, items, s0, text, -1);
          return -1;
        }
        EosPasses(here, text, s, items, s0);
      } else if op == M_CHR || op == M_ANY || op == M_CCL {
        var yes := s < se;
        if yes && op != M_ANY {
          yes := AtomMatches(prog, p, op, text[s], it.atom);
        }
        if !yes {
          OnceAnswers(here, text, s, -1);
          PassOn(here, s, items, s0, text, -1);
          return -1;
        }
        OncePasses(here, text, s, items, s0);
        s := s + 1;
        p := p + if op == M_CHR then 1 else if op == M_CCL then prog[p] else 0;
      } else {
        var sSave, x := Extent(prog, p, op, text, s, it);
        p := p + if IsRepeat(op, M_CHR) then 1 else if IsRepeat(op, M_CCL) then prog[p] else 0;
        t := StarLoop(prog, p, text, sSave, x, here, s);
        PassOn(here, s, items, s0, text, t);
        return;
      }
    }
  }

  // ---------------------------------------------------------------- MatchPat

  /** The items that follow the head of the program. */
  function Tail(pat: Text): seq<Item> { ParseItems(pat[HeadLength(pat)..]) }

  /** Every class body fits its length byte. */
  ghost predicate ClassesFit(pat: Text) {
    forall it <- Tail(pat) :: it.atom.Set? ==> |it.atom.body| <= 254
  }

  lemma {:induction false} EosIsLast(s: Text)
    ensures forall it <- ParseItems(s) :: it.atom.Eos? ==> it.quant == Once
    decreases |s|
  {
    if s != [] {
      if IsQuant(s[0]) {
        EosIsLast(s[1..]);
      } else {
        var (a, n) := ParseAtom(s);
        var rest := s[n..];
        if rest != [] && IsQuant(rest[0]) {
          EosIsLast(rest[1..]);
        } else {
          EosIsLast(rest);
        }
      }
    }
  }

  /** Where the items of a program start. */
  function Start(pat: Text): nat { if Anchored(pat) then 1 else 0 }

  lemma ProgramDecodes(pat: Text)
    requires ClassesFit(pat)
    ensures Start(pat) < |Program(pat)| && Admissible(Tail(pat)) && Decodes(Program(pat), Start(pat), Tail(pat))
    ensures IsOpcode(Program(pat)[Start(pat)]) && Program(pat)[Start(pat)] != M_BOL
  {
    hide ParseItems, Encode;
    var prog, items, at := Program(pat), Tail(pat), Start(pat);
    EosIsLast(pat[HeadLength(pat)..]);
    assert prog[at..] == Encode(items) + [M_EOF];
    DecodeStep(prog, at, items);
    if items != [] {
      DecodedTells(prog, at, items);
    }
  }

  /** What the first byte of a program tells. */
  lemma ProgramHead(pat: Text)
    requires ClassesFit(pat)
    ensures var prog := Program(pat);
            && prog != []
            && (QuantifiedAnchor(pat) ==> !IsOpcode(prog[0]) && prog[0] != M_CHR && prog[0] != M_BOL)
            && (!QuantifiedAnchor(pat) ==> (prog[0] == M_BOL <==> Anchored(pat)))
  {}

  /** A program that starts with a plain character. */
  lemma ProgramChr(pat: Text)
    requires ClassesFit(pat) && Program(pat) != [] && Program(pat)[0] == M_CHR
    ensures Tail(pat) != [] && |Program(pat)| > 1 && Tail(pat)[0] == Item(Chr(Program(pat)[1]), Once)
  {}

  /** The positions MatchPat tries. */
  predicate Candidate(pat: Text, text: Text, offset: int, i: nat) {
    if Anchored(pat) then i == Max(0, offset) else Max(0, offset) <= i < |text|
  }

  /** The documented outcome of a search: the first candidate where the language has a word, and the
      greedy word there; past is -1 when there is none. */
  ghost predicate Outcome(pat: Text, text: Text, offset: int, i: nat, past: int) {
    if past == -1 then forall i': nat :: Candidate(pat, text, offset, i') ==> NoMatch(Items(pat), text, i')
    else
      && past >= 0 && Candidate(pat, text, offset, i) && GreedyMatch(Items(pat), text, i, past)
      && forall i': nat :: Candidate(pat, text, offset, i') && i' < i ==> NoMatch(Items(pat), text, i')
  }

  /** A text that does not start with the character a pattern starts with cannot match. */
  lemma FirstCharacter(items: seq<Item>, c: Byte, text: Text, i: nat)
    requires items != [] && items[0] == Item(Chr(c), Once) && i < |text| && text[i] != c
    ensures NoMatch(items, text, i)
  {}

  /** The search of MatchPat: the position s where it stopped and the end t of the match, -1 for none.
      A program that starts with a plain character is only run where that character stands. */
  method Search(prog: Text, text: Text, offset: int, ghost pat: Text) returns (s: nat, t: int)
    requires prog == Program(pat) && ClassesFit(pat)
    ensures QuantifiedAnchor(pat) ==> t == -1
    ensures !QuantifiedAnchor(pat) ==> Outcome(pat, text, offset, s, t)
    ensures t != -1 ==> s <= t <= |text|
  {
    hide Program, Decodes, Answers, NoMatch, Admissible;
    ghost var items := Tail(pat);
    ProgramDecodes(pat);
    ProgramHead(pat);
    if prog[0] == M_CHR {
      ProgramChr(pat);
    }
    if !QuantifiedAnchor(pat) {
      TailIsItems(pat);
    }
    s, t := if offset < 0 then 0 else offset, -1;
    if prog[0] == M_BOL {
      t := AMatch(prog, 1, text, s, items);
      OpenAnswer(items, text, s, t);
    } else {
      while s < |text|
        invariant Max(0, offset) <= s && t == -1
        invariant !QuantifiedAnchor(pat) ==>
                    forall i': nat :: Candidate(pat, text, offset, i') && i' < s ==> NoMatch(items, text, i')
        decreases |text| - s
      {
        if prog[0] != M_CHR || text[s] == prog[1] {
          t := AMatch(prog, 0, text, s, items);
          if !QuantifiedAnchor(pat) {
            OpenAnswer(items, text, s, t);
          }
          if t != -1 {
            break;
          }
        } else {
          FirstCharacter(items, prog[1], text, s);
        }
        s := s + 1;
      }
    }
  }

  lemma TailIsItems(pat: Text)
    requires !QuantifiedAnchor(pat)
    ensures Tail(pat) == Items(pat)
  {}

  lemma OpenAnswer(items: seq<Item>, text: Text, i: nat, t: int)
    requires Answers(items, text, i, t)
    ensures t == -1 ==> NoMatch(items, text, i)
    ensures t != -1 ==> i <= t <= |text| && GreedyMatch(items, text, i, t)
  {
    if t != -1 {
      AnswerInside(items, text, i, t);
    }
  }

  /** MatchPat: the text before the match, the match, and the text after it. */
  method MatchPat(prog: Text, text: Text, offset: int, ghost pat: Text) returns (bef: Text, mat: Text, aft: Text, past: int)
    requires prog == Program(pat) && ClassesFit(pat)
    ensures bef + mat + aft == text
    ensures past == -1 ==> bef == text
    ensures past != -1 ==> past == |bef| + |mat|
    ensures QuantifiedAnchor(pat) ==> past == -1
    ensures !QuantifiedAnchor(pat) ==> Outcome(pat, text, offset, |bef|, past)
  {
    var s, t := Search(prog, text, offset, pat);
    if t == -1 {
      return text, [], [], -1;
    }
    return text[..s], text[s..t], text[t..], t;
  }

  /** MatchPattern: compiles the pattern and searches the text. */
  method MatchPattern(pat: Text, text: Text, offset: int) returns (bef: Text, mat: Text, aft: Text, past: int)
    requires forall c <- pat :: c < 128
    requires ClassesFit(pat)
    ensures bef + mat + aft == text
    ensures past == -1 ==> bef == text
    ensures past != -1 ==> past == |bef| + |mat|
    ensures QuantifiedAnchor(pat) ==> past == -1
    ensures !QuantifiedAnchor(pat) ==> Outcome(pat, text, offset, |bef|, past)
  {
    var prog := MakePat(pat);
    bef, mat, aft, past := MatchPat(prog, text, offset, pat);
  }

  // ---------------------------------------------------------------- where the code leaves its grammar

  /** A quantifier after the anchor is documented to stand for itself, so "^*" should match the text "*". */
  lemma QuantifiedAnchorDiffers()
    ensures var pat := [CARET, STAR];
            QuantifiedAnchor(pat) && ClassesFit(pat) && !Outcome(pat, [STAR], 0, 0, -1)
  {
    var pat, text: Text := [CARET, STAR], [STAR];
    assert pat[1..] == text && pat[2..] == text[1..] == [];
    assert ParseItems([]) == [];
    var items := Items(pat);
    assert items == [Item(Chr(STAR), Once)] + ParseItems(text[1..]);
    assert Run(Chr(STAR), text, 0, 1);
    assert Spells(items[1..], [], text, 1, 1);
    var ks: seq<nat> := [1];
    assert ks[1..] == [];
    assert Spells(items, ks, text, 0, 1);
    assert Candidate(pat, text, 0, 0);
  }

  /** Every item that must appear can: a class may be empty. */
  ghost predicate Satisfiable(items: seq<Item>) {
    forall it <- items :: (it.quant == Once || it.quant == Plus) && !it.atom.Eos? ==> exists c :: Accepts(it.atom, c)
  }

  /** `$` comes last. */
  predicate EosEnds(items: seq<Item>) { forall k :: 0 <= k < |items| - 1 ==> !items[k].atom.Eos? }

  lemma {:induction false} ParsedEosEnds(s: Text)
    ensures EosEnds(ParseItems(s))
    decreases |s|
  {
    if s != [] {
      if IsQuant(s[0]) {
        ParsedEosEnds(s[1..]);
      } else {
        var (a, n) := ParseAtom(s);
        var rest := s[n..];
        ParsedEosEnds(if rest != [] && IsQuant(rest[0]) then rest[1..] else rest);
        assert a.Eos? ==> rest == [] && ParseItems(rest) == [];
      }
    }
  }

  /** Some text that starts with pre goes on, to its end, with a word of the items. */
  lemma {:induction false} WordAfter(items: seq<Item>, pre: Text) returns (text: Text, ks: seq<nat>)
    requires Satisfiable(items) && EosEnds(items)
    ensures |pre| <= |text| && text[..|pre|] == pre && Spells(items, ks, text, |pre|, |text|)
    decreases |items|
  {
    if items == [] {
      text, ks := pre, [];
    } else {
      var it, rest := items[0], items[1..];
      assert forall k :: 0 <= k < |rest| - 1 ==> rest[k] == items[k + 1];
      if it.atom.Eos? {
        assert rest == [];
        text, ks := pre, [0];
      } else if it.quant == Star || it.quant == Cond {
        text, ks := WordAfter(rest, pre);
        ks := [0] + ks;
        assert Spells(items[1..], ks[1..], text, |pre| + ks[0], |text|);
      } else {
        assert it in items;
        var c :| Accepts(it.atom, c);
        text, ks := WordAfter(rest, pre + [c]);
        assert text[|pre|] == text[..|pre| + 1][|pre|] == c;
        assert text[..|pre|] == text[..|pre| + 1][..|pre|];
        ks := [1] + ks;
        assert Spells(items[1..], ks[1..], text, |pre| + ks[0], |text|);
      }
    }
  }

  lemma {:induction false} WordSatisfies(items: seq<Item>, ks: seq<nat>, text: Text, i: nat, j: nat)
    requires Spells(items, ks, text, i, j)
    ensures Satisfiable(items)
    decreases |items|
  {
    if items != [] {
      var it := items[0];
      if it.atom.Eos? {
        WordSatisfies(items[1..], ks[1..], text, i, j);
      } else {
        WordSatisfies(items[1..], ks[1..], text, i + ks[0], j);
        if it.quant == Once || it.quant == Plus {
          SpellsStaysInside(items[1..], ks[1..], text, i + ks[0], j);
          assert Accepts(it.atom, text[i]);
        }
      }
    }
  }

  /** With a quantifier after the anchor no text matches; that is the documented outcome for every text exactly
      when no text can match anyhow, because of a class that lists nothing. */
  lemma QuantifiedAnchorExactly(pat: Text)
    requires QuantifiedAnchor(pat)
    ensures (forall text, offset: int :: Outcome(pat, text, offset, 0, -1)) <==> !Satisfiable(Items(pat))
  {
    var items := Items(pat);
    if Satisfiable(items) {
      ParsedEosEnds(pat[1..]);
      var text, ks := WordAfter(items, []);
      assert Candidate(pat, text, 0, 0) && !NoMatch(items, text, 0);
      assert !Outcome(pat, text, 0, 0, -1);
    } else {
      forall text: Text, offset: int ensures Outcome(pat, text, offset, 0, -1) {
        forall i, ks, j ensures !Spells(items, ks, text, i, j) {
          if Spells(items, ks, text, i, j) {
            WordSatisfies(items, ks, text, i, j);
          }
        }
      }
    }
  }

  /** The length byte of a class, read back, gives its body exactly when the body has at most 254 bytes. */
  lemma ClassLengthByte(body: Text)
    ensures var code := Operand(Set(body));
            code[0] <= |code| && (code[0] >= 1 && code[1..code[0]] == body <==> |body| <= 254)
  {}

  /** A class whose body is longer is read as the class of the first bytes that its length byte leaves it, and the
      rest of the body as instructions.  With length byte 0, as for 255 bytes, there is no class text at all. */
  lemma LongClass(body: Text, q: Quant)
    requires |body| > 254
    ensures var n, code := (|body| + 1) % 256, EncodeItem(Item(Set(body), q));
            if n == 0 then code == [Opcode(Item(Set(body), q)), 0] + body
            else n - 1 < |body| && code == EncodeItem(Item(Set(body[..n - 1]), q)) + body[n - 1..]
  {
    var n, op := (|body| + 1) % 256, Opcode(Item(Set(body), q));
    if n == 0 {
      Joined([op], [0], body);
    } else {
      assert |body[..n - 1]| == n - 1;
      assert Operand(Set(body)) == [n] + body && Operand(Set(body[..n - 1])) == [n] + body[..n - 1];
      JoinedRest([op], [n], body, n - 1);
    }
  }

  lemma Joined(a: Text, b: Text, c: Text)
    ensures a + (b + c) == a + b + c
  {}

  lemma JoinedRest(a: Text, b: Text, c: Text, k: nat)
    requires k <= |c|
    ensures a + (b + c) == a + (b + c[..k]) + c[k..]
  {
    assert c == c[..k] + c[k..];
  }
}
