/** The pattern compiler of source/core/MatchPat.cpp: the byte program, and `MakePat`, which writes it into a
    buffer and patches quantifiers into opcodes it has already written. */
module PatternCompiler {
  import opened PatternGrammar

  // ---------------------------------------------------------------- the byte program

  const M_EOF: Byte := 0
  const M_STAR: Byte := 1
  const M_PLUS: Byte := 2
  const M_COND: Byte := 4
  const M_BOL: Byte := 0x58
  const M_ANY: Byte := 0x28
  const M_EOS: Byte := 0x20
  const M_CHR: Byte := 0x60
  const M_CCL: Byte := 0x30

  function Bit(q: Quant): Byte {
    match q
    case Once => 0
    case Star => M_STAR
    case Plus => M_PLUS
    case Cond => M_COND
  }

  function BaseOp(a: Atom): Byte {
    match a
    case Chr(_) => M_CHR
    case Any => M_ANY
    case Eos => M_EOS
    case Set(_) => M_CCL
  }

  /** `op |= bit` for a bit that is a power of two. */
  function SetBit(op: Byte, bit: Byte): Byte
    requires bit == M_STAR || bit == M_PLUS || bit == M_COND
  {
    if op / bit % 2 == 1 then op
    else if op + bit < 256 then op + bit else 0
  }

  /** What follows the opcode: a character, or a class with its length in one byte, which wraps. */
  function Operand(a: Atom): Text {
    match a
    case Chr(c) => [c]
    case Any => []
    case Eos => []
    case Set(body) => [(|body| + 1) % 256] + body
  }

  function Opcode(it: Item): Byte { BaseOp(it.atom) + Bit(it.quant) }

  function EncodeItem(it: Item): Text { [Opcode(it)] + Operand(it.atom) }

  function Encode(items: seq<Item>): Text {
    if items == [] then [] else EncodeItem(items[0]) + Encode(items[1..])
  }

  lemma {:induction false} EncodeAppend(xs: seq<Item>, ys: seq<Item>)
    ensures Encode(xs + ys) == Encode(xs) + Encode(ys)
  {
    if xs == [] {
      assert xs + ys == ys;
    } else {
      assert (xs + ys)[1..] == xs[1..] + ys;
      EncodeAppend(xs[1..], ys);
    }
  }

  lemma EncodeSnoc(xs: seq<Item>, it: Item)
    ensures Encode(xs + [it]) == Encode(xs) + EncodeItem(it)
  {
    EncodeAppend(xs, [it]);
    assert Encode([it]) == EncodeItem(it);
  }

  /** A quantifier right after the leading anchor lands in the anchor's opcode. */
  predicate QuantifiedAnchor(pat: Text) { Anchored(pat) && |pat| > 1 && IsQuant(pat[1]) }

  function HeadLength(pat: Text): (n: nat)
    ensures n <= |pat|
  {
    if QuantifiedAnchor(pat) then 2 else if Anchored(pat) then 1 else 0
  }

  function Head(pat: Text): Text {
    if QuantifiedAnchor(pat) then [M_BOL + Bit(QuantOf(pat[1]))] else if Anchored(pat) then [M_BOL] else []
  }

  /** The program a pattern compiles to. */
  function Program(pat: Text): Text { Head(pat) + Encode(ParseItems(pat[HeadLength(pat)..])) + [M_EOF] }

  // ---------------------------------------------------------------- MakePat

  /** ScanForBackslash: reads the byte spelled at position sp and moves the position past it. */
  method ScanForBackslash(str: Text, sp: nat) returns (c: Byte, s: nat)
    requires sp < |str|
    ensures (c, s - sp) == Unescape(str[sp..])
    ensures sp < s <= |str|
  {
    ghost var tail := str[sp..];
    s := sp;
    c := str[s];
    s := s + 1;
    if c == BACKSLASH {
      if s < |str| {
        assert tail[1] == str[s];
        c := str[s];
        s := s + 1;
        if IsDigit(c) || IsHexLetter(c) {
          c := if IsHexLetter(c) then c - (0x41 /* A */ - 10) else c - 0x30 /* 0 */;
          if s < |str| {
            assert tail[2] == str[s];
            if IsDigit(str[s]) {
              c := c * 16 + str[s] - 0x30 /* 0 */;
              s := s + 1;
            } else if IsHexLetter(str[s]) {
              c := c * 16 + str[s] - 0x41 /* A */ + 10;
              s := s + 1;
            }
          }
        } else {
          c := LetterEscape(c);
        }
      }
    }
  }

  /** What the pattern becomes when the items `done` are settled, `pend` is an atom that may still take a
      quantifier, and the text s is left to read. */
  function Resume(done: seq<Item>, pend: Option<Atom>, s: Text): seq<Item> {
    done + if pend.Some? then ParseAfterAtom(pend.value, s) else ParseItems(s)
  }

  /** The bytes written for them. */
  function Written(head: Text, done: seq<Item>, pend: Option<Atom>): Text {
    head + Encode(done) + if pend.Some? then EncodeItem(Item(pend.value, Once)) else []
  }

  /** A pending atom that no quantifier follows is settled as it is. */
  lemma Settle(head: Text, done: seq<Item>, a: Atom, s: Text)
    requires s == [] || !IsQuant(s[0])
    ensures Resume(done, Some(a), s) == Resume(done + [Item(a, Once)], None, s)
    ensures Written(head, done, Some(a)) == Written(head, done + [Item(a, Once)], None)
  {
    assert done + ([Item(a, Once)] + ParseItems(s)) == done + [Item(a, Once)] + ParseItems(s);
    EncodeSnoc(done, Item(a, Once));
    WrittenSnoc(head, done, Item(a, Once));
  }

  lemma WrittenSnoc(head: Text, done: seq<Item>, it: Item)
    ensures Written(head, done + [it], None) == head + Encode(done) + EncodeItem(it)
  {
    EncodeSnoc(done, it);
    assert head + (Encode(done) + EncodeItem(it)) == head + Encode(done) + EncodeItem(it);
  }

  /** A pending atom takes the quantifier that follows. */
  lemma Quantify(done: seq<Item>, a: Atom, s: Text)
    requires s != [] && IsQuant(s[0])
    ensures Resume(done, Some(a), s) == Resume(done + [Item(a, QuantOf(s[0]))], None, s[1..])
  {}

  /** Patching its opcode in place turns its code into that of the quantified item. */
  lemma PatchOpcode(head: Text, done: seq<Item>, a: Atom, q: Quant)
    requires q != Once
    ensures var out, at := Written(head, done, Some(a)), |head + Encode(done)|;
            at < |out| && out[at := SetBit(out[at], Bit(q))] == Written(head, done + [Item(a, q)], None)
  {
    var pre, arg := head + Encode(done), Operand(a);
    WrittenSnoc(head, done, Item(a, q));
    SetBitPatches(a, q);
    UpdateMiddle(pre, BaseOp(a), BaseOp(a) + Bit(q), arg);
  }

  lemma UpdateMiddle(pre: Text, x: Byte, y: Byte, post: Text)
    ensures (pre + ([x] + post))[|pre|] == x
    ensures (pre + ([x] + post))[|pre| := y] == pre + ([y] + post)
  {}

  /** Or'ing a quantifier into a plain opcode gives the quantified one. */
  lemma SetBitPatches(a: Atom, q: Quant)
    requires q != Once
    ensures SetBit(BaseOp(a), Bit(q)) == BaseOp(a) + Bit(q)
  {}

  /** A quantifier character with nothing to repeat becomes an item of its own. */
  lemma Literal(head: Text, done: seq<Item>, s: Text)
    requires s != [] && IsQuant(s[0])
    ensures Resume(done, None, s) == Resume(done + [Item(Chr(s[0]), Once)], None, s[1..])
    ensures Written(head, done + [Item(Chr(s[0]), Once)], None)
            == Written(head, done, None) + [M_CHR, s[0]]
  {
    var it := Item(Chr(s[0]), Once);
    assert done + ([it] + ParseItems(s[1..])) == done + [it] + ParseItems(s[1..]);
    WrittenSnoc(head, done, it);
    assert EncodeItem(it) == [M_CHR, s[0]];
  }

  /** MakePat's state after reading pat[..s]: `out` is written, and `lastP` (-1 for null) is the opcode that
      a quantifier would be or'ed into. */
  ghost predicate Wrote(pat: Text, s: nat, out: Text, lastP: int, done: seq<Item>, pend: Option<Atom>) {
    && s <= |pat| && |out| <= 2 * s
    && if Anchored(pat) && s == 0 then out == [] && lastP == -1
       else if Anchored(pat) && s == 1 then out == [M_BOL] && lastP == 0
       else
         && HeadLength(pat) <= s
         && out == Written(Head(pat), done, pend)
         && lastP == (if pend.Some? then |Head(pat) + Encode(done)| else -1)
         && Resume(done, pend, pat[s..]) == ParseItems(pat[HeadLength(pat)..])
  }

  /** One more atom. */
  lemma WroteAtom(pat: Text, s: nat, out: Text, lastP: int, done: seq<Item>, pend: Option<Atom>, a: Atom, n: nat)
    returns (done': seq<Item>)
    requires Wrote(pat, s, out, lastP, done, pend) && s < |pat| && !IsQuant(pat[s]) && (s == 0 ==> !Anchored(pat))
    requires (a, n) == ParseAtom(pat[s..]) && |out + EncodeItem(Item(a, Once))| <= 2 * (s + n)
    ensures Wrote(pat, s + n, out + EncodeItem(Item(a, Once)), |out|, done', Some(a))
  {
    var head, rest := Head(pat), pat[s..];
    if Anchored(pat) && s == 1 {
      done' := [];
    } else if pend.Some? {
      done' := done + [Item(pend.value, Once)];
      Settle(head, done, pend.value, rest);
    } else {
      done' := done;
    }
    assert rest[n..] == pat[s + n..];
    assert out == head + Encode(done');
  }

  /** A quantifier for the pending atom, or for the anchor. */
  lemma WroteQuant(pat: Text, s: nat, out: Text, lastP: int, done: seq<Item>, pend: Option<Atom>) returns (done': seq<Item>)
    requires Wrote(pat, s, out, lastP, done, pend) && s < |pat| && IsQuant(pat[s]) && lastP != -1
    ensures 0 <= lastP < |out|
    ensures Wrote(pat, s + 1, out[lastP := SetBit(out[lastP], Bit(QuantOf(pat[s])))], -1, done', None)
  {
    assert pat[s..][1..] == pat[s + 1..];
    if Anchored(pat) && s == 1 {
      done' := [];
    } else {
      done' := done + [Item(pend.value, QuantOf(pat[s]))];
      Quantify(done, pend.value, pat[s..]);
      PatchOpcode(Head(pat), done, pend.value, QuantOf(pat[s]));
    }
  }

  /** A quantifier character that stands for itself. */
  lemma WroteLiteral(pat: Text, s: nat, out: Text, done: seq<Item>, pend: Option<Atom>) returns (done': seq<Item>)
    requires Wrote(pat, s, out, -1, done, pend) && s < |pat| && IsQuant(pat[s])
    ensures Wrote(pat, s + 1, out + [M_CHR, pat[s]], -1, done', None)
  {
    assert pat[s..][1..] == pat[s + 1..];
    done' := done + [Item(Chr(pat[s]), Once)];
    Literal(Head(pat), done, pat[s..]);
  }

  /** The end of the pattern. */
  lemma WroteAll(pat: Text, out: Text, lastP: int, done: seq<Item>, pend: Option<Atom>)
    requires Wrote(pat, |pat|, out, lastP, done, pend)
    ensures out + [M_EOF] == Program(pat)
  {
    assert pat[|pat|..] == [];
    if Anchored(pat) && |pat| == 1 {
      assert pat[1..] == [] && Encode([]) == [];
    } else if pend.Some? {
      Settle(Head(pat), done, pend.value, []);
      assert done + [Item(pend.value, Once)] + [] == done + [Item(pend.value, Once)];
    } else {
      assert done + [] == done;
    }
  }

  /** `*p++ = b`. */
  method Put(pat: array<Byte>, p: nat, b: Byte) returns (next: nat)
    requires p < pat.Length
    modifies pat
    ensures next == p + 1 && pat[..next] == old(pat[..p]) + [b]
  {
    pat[p] := b;
    next := p + 1;
  }

  /** `*at = b`, below the write position p. */
  method PutAt(pat: array<Byte>, at: nat, b: Byte, ghost p: nat)
    requires at < p <= pat.Length
    modifies pat
    ensures pat[at] == b && pat[..p] == old(pat[..p])[at := b]
  {
    pat[at] := b;
  }

  /** `*p++ = mChr, *p++ = c`. */
  method PutChr(pat: array<Byte>, p: nat, c: Byte) returns (next: nat)
    requires p + 1 < pat.Length
    modifies pat
    ensures next == p + 2 && pat[..next] == old(pat[..p]) + [M_CHR, c]
  {
    next := Put(pat, p, M_CHR);
    next := Put(pat, next, c);
  }

  /** `*lastP |= bit`, below the write position p. */
  method OrInto(pat: array<Byte>, lastP: nat, c: Byte, ghost p: nat)
    requires lastP < p <= pat.Length && IsQuant(c)
    modifies pat
    ensures pat[..p] == old(pat[..p])[lastP := SetBit(old(pat[lastP]), Bit(QuantOf(c)))]
  {
    PutAt(pat, lastP, SetBit(pat[lastP], if c == STAR then M_STAR else if c == PLUS then M_PLUS else M_COND), p);
  }

  /** Copies the body of a class, resolving escapes, from source position s0 to buffer position p0. */
  method LexBody(str: Text, s0: nat, pat: array<Byte>, p0: nat) returns (s: nat, p: nat)
    requires s0 <= |str| && p0 + (|str| - s0) <= pat.Length
    modifies pat
    ensures s0 <= s <= |str| && p0 <= p && p - p0 <= s - s0 && p <= pat.Length
    ensures var (body, n) := ClassBody(str[s0..]);
            s - s0 == n && pat[..p] == old(pat[..p0]) + body
  {
    s, p := s0, p0;
    ghost var goal, before := ClassBody(str[s0..]), pat[..p0];
    ghost var done: Text := [];
    while s < |str|
      invariant s0 <= s <= |str| && p0 <= p && p - p0 <= s - s0
      invariant pat[..p] == before + done
      invariant goal.0 == done + ClassBody(str[s..]).0 && goal.1 == s - s0 + ClassBody(str[s..]).1
      decreases |str| - s
    {
      ghost var here := str[s..];
      var c := str[s];
      if c == CLOSE {
        s := s + 1;
        assert ClassBody(here) == ([], 1);
        return;
      }
      if c == BACKSLASH {
        c, s := ScanForBackslash(str, s);
      } else {
        s := s + 1;
      }
      assert str[s..] == here[Unescape(here).1..];
      p := Put(pat, p, c);
      BodyStep(here, done);
      done := done + [c];
    }
    assert str[s..] == [];
  }

  lemma BodyStep(s: Text, done: Text)
    requires s != [] && s[0] != CLOSE
    ensures var (c, n) := Unescape(s);
            done + ClassBody(s).0 == done + [c] + ClassBody(s[n..]).0 && ClassBody(s).1 == n + ClassBody(s[n..]).1
  {}

  /** Compiles the class whose opening bracket ends at source position s0: the opcode, a gap for the length,
      the body, and then the length written back into the gap. */
  method PutClass(str: Text, s0: nat, pat: array<Byte>, lastP: nat) returns (s: nat, p: nat)
    requires s0 <= |str| && lastP + 2 + (|str| - s0) <= pat.Length
    modifies pat
    ensures s0 <= s <= |str| && p <= pat.Length && lastP + 2 <= p && p - lastP - 2 <= s - s0
    ensures var (body, n) := ClassBody(str[s0..]);
            s - s0 == n && pat[..p] == old(pat[..lastP]) + EncodeItem(Item(Set(body), Once))
  {
    p := Put(pat, lastP, M_CCL);
    ghost var before, gap := pat[..p], pat[p];
    assert pat[..p + 1] == before + [gap];
    s, p := LexBody(str, s0, pat, p + 1);
    ghost var body := ClassBody(str[s0..]).0;
    assert pat[..p] == before + ([gap] + body);
    PutAt(pat, lastP + 1, (p - lastP - 1) % 256, p);
    UpdateMiddle(before, gap, (p - lastP - 1) % 256, body);
    assert EncodeItem(Item(Set(body), Once)) == [M_CCL] + ([pat[lastP + 1]] + body);
  }

  /** The atom a text starts with, by its first byte. */
  lemma AtomRead(s: Text, a: Atom, n: nat)
    requires s != [] && !IsQuant(s[0])
    requires if s[0] == DOT then a == Any && n == 1
             else if s[0] == DOLLAR && |s| == 1 then a == Eos && n == 1
             else if s[0] == OPEN then a == Set(ClassBody(s[1..]).0) && n == 1 + ClassBody(s[1..]).1
             else (a, n) == (Chr(Unescape(s).0), Unescape(s).1)
    ensures (a, n) == ParseAtom(s)
  {}

  lemma WroteStart(pat: Text)
    ensures Wrote(pat, 0, [], -1, [], None)
    ensures Anchored(pat) ==> Wrote(pat, 1, [M_BOL], 0, [], None)
  {}

  /** The branches of MakePat's switch that emit an atom: everything but a quantifier character and the
      anchor.  `^` and `$` are ordinary characters here unless `$` ends the pattern. */
  method PutAtom(str: Text, s0: nat, pat: array<Byte>, p0: nat) returns (s: nat, p: nat)
    requires s0 < |str| && !IsQuant(str[s0]) && p0 + 2 * (|str| - s0) <= pat.Length
    modifies pat
    ensures s0 < s <= |str| && p0 < p <= pat.Length && p - p0 <= 2 * (s - s0)
    ensures var (a, n) := ParseAtom(str[s0..]);
            s - s0 == n && pat[..p] == old(pat[..p0]) + EncodeItem(Item(a, Once))
  {
    ghost var rest, a: Atom := str[s0..], Any;
    var c := str[s0];
    s, p := s0 + 1, p0;
    if c == DOT {
      p := Put(pat, p, M_ANY);
    } else if c == DOLLAR && s == |str| {
      p := Put(pat, p, M_EOS);
      a := Eos;
    } else if c == OPEN {
      s, p := PutClass(str, s, pat, p);
      assert rest[1..] == str[s0 + 1..];
      a := Set(ClassBody(rest[1..]).0);
    } else {
      if c == BACKSLASH {
        c, s := ScanForBackslash(str, s - 1);
      }
      p := PutChr(pat, p, c);
      a := Chr(c);
    }
    AtomRead(rest, a, s - s0);
  }

  /** MakePat: compiles a pattern of single-byte characters. */
  method MakePat(str: Text) returns (prog: Text)
    requires forall c <- str :: c < 128
    ensures prog == Program(str)
  {
    hide Wrote, ParseAtom;
    var pat := new Byte[2 * |str| + 10](_ => 0);
    var s, p, lastP := 0, 0, -1;
    ghost var done: seq<Item>, pend: Option<Atom> := [], None;
    WroteStart(str);
    while s < |str|
      invariant 0 <= s <= |str| && p <= 2 * s && (p == 0 <==> s == 0) && lastP < p
      invariant Wrote(str, s, pat[..p], lastP, done, pend)
      decreases |str| - s
    {
      ghost var s0, out := s, pat[..p];
      var c := str[s];
      if IsQuant(c) {
        s := s + 1;
        if lastP == -1 {
          p := PutChr(pat, p, c);
          done := WroteLiteral(str, s0, out, done, pend);
        } else {
          done := WroteQuant(str, s0, out, lastP, done, pend);
          assert out[lastP] == pat[lastP];
          OrInto(pat, lastP, c, p);
          lastP := -1;
        }
        pend := None;
      } else if c == CARET && p == 0 {
        s, lastP := s + 1, p;
        p := Put(pat, p, M_BOL);
        done, pend := [], None;
        assert pat[..p] == [M_BOL];
      } else {
        ghost var last0 := lastP;
        lastP := p;
        s, p := PutAtom(str, s, pat, p);
        done := WroteAtom(str, s0, out, last0, done, pend, ParseAtom(str[s0..]).0, s - s0);
        pend := Some(ParseAtom(str[s0..]).0);
      }
    }
    WroteAll(str, pat[..p], lastP, done, pend);
    p := Put(pat, p, M_EOF);
    prog := pat[..p];
  }
}
