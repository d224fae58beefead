/** LIKE patterns. */
module LikePattern {
  import opened LittleEndian

  // The planner takes the percent signs off both ends of a pattern and looks for the rest inside the text. Here is what
  // the pattern means, and for which patterns that search is right.

  type Bytes = seq<byte>

  const PERCENT: byte := 37
  const UNDERSCORE: byte := 95

  /** A percent sign stands for any bytes, an underscore for one byte, and anything else for itself. */
  ghost predicate Matches(s: Bytes, p: Bytes)
    decreases |p|
  {
    if p == [] then s == []
    else if p[0] == PERCENT then exists k :: 0 <= k <= |s| && Matches(s[k..], p[1..])
    else s != [] && (p[0] == UNDERSCORE || s[0] == p[0]) && Matches(s[1..], p[1..])
  }

  predicate StandsAt(s: Bytes, t: Bytes, i: nat) {
    i + |t| <= |s| && s[i..i + |t|] == t
  }

  ghost predicate Contains(s: Bytes, t: Bytes) {
    exists i: nat :: StandsAt(s, t, i)
  }

  function TrimStart(p: Bytes): Bytes {
    if p != [] && p[0] == PERCENT then TrimStart(p[1..]) else p
  }

  function TrimEnd(p: Bytes): Bytes
    decreases |p|
  {
    if p != [] && p[|p| - 1] == PERCENT then TrimEnd(p[..|p| - 1]) else p
  }

  /** The pattern without the percent signs at its ends. */
  function Trim(p: Bytes): Bytes {
    TrimEnd(TrimStart(p))
  }

  predicate Plain(t: Bytes) {
    forall i :: 0 <= i < |t| ==> t[i] != PERCENT && t[i] != UNDERSCORE
  }

  /** The pattern starts and ends with a percent sign, and what is between the signs has neither sign. */
  predicate Framed(p: Bytes) {
    p != [] && p[0] == PERCENT && p[|p| - 1] == PERCENT && Plain(Trim(p))
  }

  function Percents(n: nat): Bytes {
    seq(n, _ => PERCENT)
  }

  // ---------- the parts of a pattern ----------

  lemma {:induction false} StartTrimmed(p: Bytes) returns (a: nat)
    ensures p == Percents(a) + TrimStart(p)
    ensures TrimStart(p) != [] ==> TrimStart(p)[0] != PERCENT
    ensures a > 0 <==> p != [] && p[0] == PERCENT
    decreases |p|
  {
    a := 0;
    if p != [] && p[0] == PERCENT {
      a := StartTrimmed(p[1..]);
      assert p == [p[0]] + p[1..];
      assert Percents(a + 1) == [PERCENT] + Percents(a);
      a := a + 1;
    }
  }

  lemma {:induction false} EndTrimmed(p: Bytes) returns (b: nat)
    ensures p == TrimEnd(p) + Percents(b)
    ensures TrimEnd(p) != [] ==> TrimEnd(p)[|TrimEnd(p)| - 1] != PERCENT && TrimEnd(p)[0] == p[0]
    ensures b > 0 <==> p != [] && p[|p| - 1] == PERCENT
    decreases |p|
  {
    b := 0;
    if p != [] && p[|p| - 1] == PERCENT {
      var front := p[..|p| - 1];
      b := EndTrimmed(front);
      assert p == front + [PERCENT];
      assert Percents(b + 1) == Percents(b) + [PERCENT];
      assert TrimEnd(front) + Percents(b) + [PERCENT] == TrimEnd(front) + (Percents(b) + [PERCENT]);
      b := b + 1;
    }
  }

  /** A pattern is percent signs, what is left without them, and percent signs. */
  lemma Parts(p: Bytes) returns (a: nat, b: nat)
    ensures p == Percents(a) + (Trim(p) + Percents(b))
    ensures a > 0 <==> p != [] && p[0] == PERCENT
    ensures Trim(p) != [] ==> Trim(p)[0] != PERCENT && Trim(p)[|Trim(p)| - 1] != PERCENT
    ensures Trim(p) != [] ==> (b > 0 <==> p[|p| - 1] == PERCENT)
    ensures Trim(p) == [] ==> p == Percents(a)
  {
    a := StartTrimmed(p);
    var rest := TrimStart(p);
    b := EndTrimmed(rest);
    assert b > 0 ==> Percents(b)[0] == PERCENT;
    if Trim(p) == [] {
      assert rest == Percents(b);
      assert Percents(a) + [] == Percents(a);
    } else {
      assert p[|p| - 1] == rest[|rest| - 1];
    }
  }

  // ---------- matching the parts ----------

  lemma {:induction false} PercentsMatch(s: Bytes, n: nat, rest: Bytes)
    ensures Matches(s, Percents(n) + rest) <==>
      if n == 0 then Matches(s, rest) else exists k :: 0 <= k <= |s| && Matches(s[k..], rest)
    decreases n
  {
    var p := Percents(n) + rest;
    if n == 0 {
      assert p == rest;
    } else {
      assert p[1..] == Percents(n - 1) + rest;
      forall k | 0 <= k <= |s|
        ensures Matches(s[k..], p[1..]) <==>
          if n == 1 then Matches(s[k..], rest) else exists j :: 0 <= j <= |s| - k && Matches(s[k..][j..], rest)
      {
        PercentsMatch(s[k..], n - 1, rest);
      }
      if n > 1 { ManyPercents(s, rest); }
    }
  }

  lemma ManyPercents(s: Bytes, rest: Bytes)
    ensures (exists k :: 0 <= k <= |s| && exists j :: 0 <= j <= |s| - k && Matches(s[k..][j..], rest))
      <==> exists k :: 0 <= k <= |s| && Matches(s[k..], rest)
  {
    if k, j :| 0 <= k <= |s| && 0 <= j <= |s| - k && Matches(s[k..][j..], rest) {
      assert s[k..][j..] == s[k + j..];
    }
    if k :| 0 <= k <= |s| && Matches(s[k..], rest) {
      assert s[k..][0..] == s[k..];
      assert 0 <= 0 <= |s| - k;
    }
  }

  lemma {:induction false} PlainMatches(s: Bytes, t: Bytes, rest: Bytes)
    requires Plain(t)
    ensures Matches(s, t + rest) <==> |t| <= |s| && s[..|t|] == t && Matches(s[|t|..], rest)
    decreases |t|
  {
    var p := t + rest;
    if t == [] {
      assert p == rest && s[0..] == s;
    } else {
      assert p[1..] == t[1..] + rest && p[0] == t[0];
      if s != [] {
        PlainMatches(s[1..], t[1..], rest);
        if |t| <= |s| {
          assert s[..|t|] == [s[0]] + s[1..][..|t| - 1] && t == [t[0]] + t[1..];
          assert s[1..][|t| - 1..] == s[|t|..];
        }
      }
    }
  }

  lemma AnythingMatches(s: Bytes, n: nat)
    ensures n > 0 ==> Matches(s, Percents(n))
    ensures n == 0 ==> (Matches(s, Percents(n)) <==> s == [])
  {
    PercentsMatch(s, n, []);
    assert Percents(n) + [] == Percents(n);
    assert s[|s|..] == [];
    assert Matches(s[|s|..], []);
  }

  /** Between percent signs, a plain text is found wherever it is contained. */
  lemma FramedMatches(s: Bytes, a: nat, t: Bytes, b: nat)
    requires a > 0 && b > 0 && Plain(t)
    ensures Matches(s, Percents(a) + (t + Percents(b))) <==> Contains(s, t)
  {
    PercentsMatch(s, a, t + Percents(b));
    forall k | 0 <= k <= |s| ensures Matches(s[k..], t + Percents(b)) <==> StandsAt(s, t, k) {
      PlainMatches(s[k..], t, Percents(b));
      if |t| <= |s| - k {
        AnythingMatches(s[k..][|t|..], b);
        assert s[k..][..|t|] == s[k..k + |t|];
      }
    }
  }

  // ---------- patterns for which the search is wrong ----------

  /** A text for a pattern: every percent sign for nothing, every underscore for some byte. */
  function Filled(p: Bytes): (s: Bytes)
    ensures Plain(s)
  {
    if p == [] then []
    else (if p[0] == PERCENT then [] else if p[0] == UNDERSCORE then [1] else [p[0]]) + Filled(p[1..])
  }

  lemma {:induction false} FilledMatches(p: Bytes)
    ensures Matches(Filled(p), p)
    decreases |p|
  {
    if p == [] {
    } else {
      var s := Filled(p);
      FilledMatches(p[1..]);
      if p[0] == PERCENT { assert s[0..] == Filled(p[1..]); } else { assert s[1..] == Filled(p[1..]); }
    }
  }

  lemma PlainHasNone(s: Bytes, t: Bytes)
    requires Plain(s) && !Plain(t)
    ensures !Contains(s, t)
  {
    var j :| 0 <= j < |t| && (t[j] == PERCENT || t[j] == UNDERSCORE);
    forall i: nat ensures !StandsAt(s, t, i) {
      if i + |t| <= |s| { assert s[i..i + |t|][j] == s[i + j]; }
    }
  }

  function Other(c: byte): (d: byte)
    ensures d != c
  {
    if c == 1 then 2 else 1
  }

  /** A text that contains what is left of the pattern but does not start with it. */
  lemma NotAtStart(t: Bytes, b: nat)
    requires Plain(t) && t != []
    ensures
      var s := [Other(t[0])] + t;
      Contains(s, t) && !Matches(s, t + Percents(b))
  {
    var s := [Other(t[0])] + t;
    assert StandsAt(s, t, 1);
    PlainMatches(s, t, Percents(b));
    assert s[..|t|][0] == s[0];
  }

  /** One that contains it but does not end with it. */
  lemma NotAtEnd(a: nat, t: Bytes)
    requires Plain(t) && t != []
    ensures
      var s := t + [Other(t[|t| - 1])];
      Contains(s, t) && !Matches(s, Percents(a) + t)
  {
    var s := t + [Other(t[|t| - 1])];
    assert StandsAt(s, t, 0);
    assert s[0..] == s && s[|s| - 1] == Other(t[|t| - 1]);
    PercentsMatch(s, a, t);
    hide Matches, Plain, StandsAt;
    forall k | 0 <= k <= |s| ensures !Matches(s[k..], t) { EndsOtherwise(s, t, k); }
  }

  lemma EndsOtherwise(s: Bytes, t: Bytes, k: nat)
    requires Plain(t) && t != [] && k <= |s| && s != [] && s[|s| - 1] != t[|t| - 1]
    ensures !Matches(s[k..], t)
  {
    PlainMatches(s[k..], t, []);
    assert t + [] == t;
    if |s| - k == |t| { assert s[k..][..|t|][|t| - 1] == s[|s| - 1]; }
  }

  // ---------- main result ----------

  /** The search is right for the pattern and every text. */
  ghost predicate SearchIsRight(p: Bytes) {
    forall s: Bytes :: Matches(s, p) <==> Contains(s, Trim(p))
  }

  lemma FramedIsRight(p: Bytes)
    requires Framed(p)
    ensures SearchIsRight(p)
  {
    hide Matches, Contains, Trim;
    var a, b := Parts(p);
    forall s ensures Matches(s, p) <==> Contains(s, Trim(p)) {
      if Trim(p) == [] {
        AnythingMatches(s, a);
        NothingContained(s);
      } else {
        FramedMatches(s, a, Trim(p), b);
      }
    }
  }

  lemma NothingContained(s: Bytes)
    ensures Contains(s, [])
  {
    assert StandsAt(s, [], 0);
  }

  /** A text that tells the search from the pattern. */
  lemma WrongText(p: Bytes) returns (s: Bytes)
    requires !Framed(p)
    ensures !(Matches(s, p) <==> Contains(s, Trim(p)))
  {
    hide Matches, Contains, Trim, Filled;
    var a, b := Parts(p);
    var t := Trim(p);
    if !Plain(t) {
      s := Filled(p);
      FilledMatches(p);
      PlainHasNone(s, t);
    } else if t == [] {
      s := [1];
      AnythingMatches(s, a);
      NothingContained(s);
      if a > 0 { LastOfPercents(a); }
    } else if a == 0 {
      s := [Other(t[0])] + t;
      NotAtStart(t, b);
      assert Percents(0) + (t + Percents(b)) == t + Percents(b);
    } else {
      s := t + [Other(t[|t| - 1])];
      NotAtEnd(a, t);
      assert b == 0 && t + Percents(0) == t;
    }
  }

  lemma LastOfPercents(n: nat)
    requires n > 0
    ensures Percents(n)[n - 1] == PERCENT && |Percents(n)| == n
  {
  }

  /** Looking for what is left of the pattern is right for all texts exactly for the patterns that are framed. */
  lemma SearchRightExactly(p: Bytes)
    ensures SearchIsRight(p) <==> Framed(p)
  {
    hide Matches, Contains, Framed;
    if Framed(p) { FramedIsRight(p); } else { var s := WrongText(p); }
  }
}
