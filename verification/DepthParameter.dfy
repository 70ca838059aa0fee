/** The `recursive` query value. */
module DepthParameter {
  import opened Decimal
  import opened Expand
  import opened Options

  datatype ParseError = Malformed(raw: string) | OutOfRange(value: nat, max: nat)

  datatype Result = Ok(depth: Depth) | Err(error: ParseError)

  const U32_MAX := 0xffff_ffff

  predicate IsSpace(c: char) {
    || '\t' <= c <= '\r' || c == ' ' || c == '\U{85}' || c == '\U{a0}' || c == '\U{1680}'
    || '\U{2000}' <= c <= '\U{200a}' || c == '\U{2028}' || c == '\U{2029}' || c == '\U{202f}' || c == '\U{205f}'
    || c == '\U{3000}'
  }

  function TrimLeft(s: string): string {
    if s != [] && IsSpace(s[0]) then TrimLeft(s[1..]) else s
  }

  function TrimRight(s: string): string {
    if s != [] && IsSpace(s[|s| - 1]) then TrimRight(s[..|s| - 1]) else s
  }

  function Trim(s: string): string {
    TrimRight(TrimLeft(s))
  }

  function Lower(c: char): char {
    if 'A' <= c <= 'Z' then c + 32 as char else c
  }

  predicate IsAll(s: string) {
    |s| == 3 && Lower(s[0]) == 'a' && Lower(s[1]) == 'l' && Lower(s[2]) == 'l'
  }

  function ParseDepth(raw: string): (r: Result)
    ensures r.Ok? ==> r.depth.Effective() <= 8 && r.depth != Levels(0)
    ensures r.Ok? ==> Means(Trim(raw), r.depth)
    ensures r.Err? ==> forall d :: !Means(Trim(raw), d)
    ensures r.Err? && r.error.OutOfRange? ==>
      8 == r.error.max < r.error.value <= U32_MAX && Numeral(Trim(raw), r.error.value)
    ensures r.Err? && r.error.Malformed? ==>
      r.error.raw == raw && forall n: nat :: n <= U32_MAX ==> !Numeral(Trim(raw), n)
  {
    var trimmed := Trim(raw);
    if trimmed == [] then Ok(NoDepth)
    else if IsAll(trimmed) then Ok(All)
    else
      match Parse(trimmed, U32_MAX)
      case None => Err(Malformed(raw))
      case Some(n) =>
        if n == 0 then Ok(NoDepth) else if n > MAX_DEPTH then Err(OutOfRange(n, MAX_DEPTH)) else Ok(Levels(n))
  }

  predicate Blank(s: string) {
    forall i :: 0 <= i < |s| ==> IsSpace(s[i])
  }

  lemma {:induction false} TrimPadded(before: string, s: string, after: string)
    requires Blank(before) && Blank(after) && s != [] && !IsSpace(s[0]) && !IsSpace(s[|s| - 1])
    ensures Trim(before + s + after) == s
    decreases |before| + |after|
  {
    var t := before + s + after;
    if before != [] {
      TrimPadded(before[1..], s, after);
      assert t[1..] == before[1..] + s + after;
    } else if after != [] {
      TrimPadded(before, s, after[..|after| - 1]);
      var u := before + s + after[..|after| - 1];
      assert t[0] == s[0] && u[0] == s[0] && TrimLeft(t) == t && TrimLeft(u) == u;
      assert t[..|t| - 1] == u;
    } else {
      assert t == s;
    }
  }

  lemma {:induction false} TrimBlank(s: string)
    requires Blank(s)
    ensures Trim(s) == []
    decreases |s|
  {
    if s != [] { TrimBlank(s[1..]); }
  }

  lemma {:induction false} TrimLeftSplits(s: string) returns (before: string)
    ensures Blank(before) && s == before + TrimLeft(s) && (TrimLeft(s) != [] ==> !IsSpace(TrimLeft(s)[0]))
  {
    before := [];
    if s != [] && IsSpace(s[0]) {
      var rest := TrimLeftSplits(s[1..]);
      before := [s[0]] + rest;
    }
  }

  lemma {:induction false} TrimRightSplits(s: string) returns (after: string)
    ensures Blank(after) && s == TrimRight(s) + after
    ensures var r := TrimRight(s); r != [] ==> !IsSpace(r[|r| - 1]) && r[0] == s[0]
  {
    after := [];
    if s != [] && IsSpace(s[|s| - 1]) {
      var rest := TrimRightSplits(s[..|s| - 1]);
      after := rest + [s[|s| - 1]];
    }
  }

  /** `s` without the white space around it. */
  ghost predicate Padded(raw: string, before: string, s: string, after: string) {
    && raw == before + s + after && Blank(before) && Blank(after)
    && (s != [] ==> !IsSpace(s[0]) && !IsSpace(s[|s| - 1]))
  }

  lemma TrimIsPadded(raw: string) returns (before: string, after: string)
    ensures Padded(raw, before, Trim(raw), after)
  {
    before := TrimLeftSplits(raw);
    after := TrimRightSplits(TrimLeft(raw));
    assert before + (Trim(raw) + after) == before + Trim(raw) + after;
  }

  lemma PaddedIsTrim(raw: string, before: string, s: string, after: string)
    requires Padded(raw, before, s, after)
    ensures Trim(raw) == s
  {
    if s == [] { TrimBlank(raw); } else { TrimPadded(before, s, after); }
  }

  predicate Numeral(s: string, n: nat) {
    var digits := if s != [] && s[0] == '+' then s[1..] else s;
    digits != [] && Digits(digits) && Number(digits) == n
  }

  predicate Means(s: string, d: Depth) {
    match d
    case NoDepth => s == [] || Numeral(s, 0)
    case All => IsAll(s)
    case Levels(n) => 1 <= n <= MAX_DEPTH && Numeral(s, n)
  }

  /** Exactly which texts are accepted, and for which depth: inside any white space,
      nothing or zero for none, the word for all, and a number from 1 to 8. */
  lemma AcceptedIff(raw: string, d: Depth)
    ensures ParseDepth(raw) == Ok(d) <==> exists before, s, after :: Padded(raw, before, s, after) && Means(s, d)
  {
    var before, after := TrimIsPadded(raw);
    forall b, s, a | Padded(raw, b, s, a) ensures s == Trim(raw) { PaddedIsTrim(raw, b, s, a); }
    assert Padded(raw, before, Trim(raw), after);
    assert ParseDepth(raw) == Ok(d) <==> Means(Trim(raw), d) by { WordIsNoNumeral(Trim(raw)); }
  }

  /** A larger number within 32 bits is out of range; every other text is malformed. */
  lemma OutOfRangeIff(raw: string, n: nat)
    ensures ParseDepth(raw) == Err(OutOfRange(n, MAX_DEPTH))
      <==> MAX_DEPTH < n <= U32_MAX && exists before, s, after :: Padded(raw, before, s, after) && Numeral(s, n)
    ensures ParseDepth(raw).Err? && ParseDepth(raw).error.Malformed? ==> ParseDepth(raw) == Err(Malformed(raw))
  {
    var before, after := TrimIsPadded(raw);
    forall b, s, a | Padded(raw, b, s, a) ensures s == Trim(raw) { PaddedIsTrim(raw, b, s, a); }
    assert Padded(raw, before, Trim(raw), after);
    WordIsNoNumeral(Trim(raw));
  }

  lemma WordIsNoNumeral(s: string)
    ensures IsAll(s) ==> forall n :: !Numeral(s, n)
  {
    if IsAll(s) { assert !IsDigit(s[0]) && s[0] != '+'; }
  }

  /** The word in any mix of cases asks for the maximum. */
  lemma AllInAnyCase(before: string, s: string, after: string)
    requires Blank(before) && Blank(after) && |s| == 3 && s[0] in "aA" && s[1] in "lL" && s[2] in "lL"
    ensures ParseDepth(before + s + after) == Ok(All) && All.Effective() == MAX_DEPTH
  {
    TrimPadded(before, s, after);
  }

  /** Every printed number, whatever white space surrounds it, parses to its depth
      from 0 to 8 and to an error beyond. */
  lemma PrintedDepthParses(before: string, n: nat, after: string)
    requires Blank(before) && Blank(after)
    ensures ParseDepth(before + Print(n) + after) ==
      if n == 0 then Ok(NoDepth)
      else if n <= MAX_DEPTH then Ok(Levels(n))
      else if n <= U32_MAX then Err(OutOfRange(n, MAX_DEPTH))
      else Err(Malformed(before + Print(n) + after))
  {
    var s := Print(n);
    assert IsDigit(s[0]) && IsDigit(s[|s| - 1]);
    TrimPadded(before, s, after);
    ParsesPrinted(n, U32_MAX);
    assert !IsAll(s);
  }
}
