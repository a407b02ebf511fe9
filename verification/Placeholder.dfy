/** replacePlaceholder: replace the first occurrence, scan again from the start, until none
    is left. When that ends, and when it is an ordinary replacement. */
module Placeholder {

  predicate OccursAt(t: string, ph: string, i: nat) {
    i + |ph| <= |t| && t[i..i + |ph|] == ph
  }

  predicate Occurs(t: string, ph: string) {
    exists i: nat :: i <= |t| && OccursAt(t, ph, i)
  }

  // The first occurrence at or after i, or -1.
  function FirstFrom(t: string, ph: string, i: nat): int
    requires i <= |t| + 1
    decreases |t| + 1 - i
  {
    if i == |t| + 1 then -1
    else if OccursAt(t, ph, i) then i
    else FirstFrom(t, ph, i + 1)
  }

  lemma {:induction false} FirstFromSpec(t: string, ph: string, i: nat)
    requires i <= |t| + 1
    ensures var r := FirstFrom(t, ph, i);
            && (r == -1 || (i <= r <= |t| && OccursAt(t, ph, r)))
            && forall j: nat :: i <= j && (r == -1 || j < r) ==> !OccursAt(t, ph, j)
    decreases |t| + 1 - i
  {
    if i <= |t| && !OccursAt(t, ph, i) { FirstFromSpec(t, ph, i + 1); }
  }

  // It is the only position with those properties.
  lemma FirstIs(t: string, ph: string, r: nat)
    requires OccursAt(t, ph, r) && forall j: nat :: j < r ==> !OccursAt(t, ph, j)
    ensures FirstFrom(t, ph, 0) == r
  {
    FirstFromSpec(t, ph, 0);
  }

  lemma NoneMeansNoFirst(t: string, ph: string)
    ensures Occurs(t, ph) <==> FirstFrom(t, ph, 0) != -1
  {
    FirstFromSpec(t, ph, 0);
  }

  function Splice(t: string, from: nat, to: nat, v: string): string
    requires from <= to <= |t|
  {
    t[..from] + v + t[to..]
  }

  // One turn of the outer loop.
  function Turn(t: string, ph: string, v: string): string {
    var idx := FirstFrom(t, ph, 0);
    if 0 <= idx && idx + |ph| <= |t| then Splice(t, idx, idx + |ph|, v) else t
  }

  function Turning(ph: string, v: string): string -> string {
    t => Turn(t, ph, v)
  }

  function Iterate<T>(f: T -> T, x: T, n: nat): T {
    if n == 0 then x else f(Iterate(f, x, n - 1))
  }

  lemma {:induction false} IterateFirst<T>(f: T -> T, x: T, n: nat)
    ensures Iterate(f, f(x), n) == Iterate(f, x, n + 1)
  {
    if n > 0 { IterateFirst(f, x, n - 1); }
  }

  lemma {:induction false} IterateFixed<T>(f: T -> T, x: T, n: nat, m: nat)
    requires n <= m && f(Iterate(f, x, n)) == Iterate(f, x, n)
    ensures Iterate(f, x, m) == Iterate(f, x, n)
    decreases m
  {
    if n < m { IterateFixed(f, x, n, m - 1); }
  }

  function Turns(t: string, ph: string, v: string, n: nat): string {
    Iterate(Turning(ph, v), t, n)
  }

  // The loop ends: after that number of turns no occurrence is left.
  ghost predicate HaltsIn(t: string, ph: string, v: string, n: nat) {
    !Occurs(Turns(t, ph, v, n), ph)
  }

  ghost predicate Halts(t: string, ph: string, v: string) {
    exists n: nat :: HaltsIn(t, ph, v, n)
  }

  lemma TurnFirst(t: string, ph: string, v: string, n: nat)
    ensures Turns(Turn(t, ph, v), ph, v, n) == Turns(t, ph, v, n + 1)
  {
    IterateFirst(Turning(ph, v), t, n);
  }

  lemma TurnWithoutOccurrence(t: string, ph: string, v: string)
    requires !Occurs(t, ph)
    ensures Turn(t, ph, v) == t
  {
    NoneMeansNoFirst(t, ph);
  }

  lemma TurnAtFirst(t: string, ph: string, v: string, idx: nat)
    requires OccursAt(t, ph, idx) && forall j: nat :: j < idx ==> !OccursAt(t, ph, j)
    ensures Turn(t, ph, v) == Splice(t, idx, idx + |ph|, v)
  {
    FirstIs(t, ph, idx);
  }

  // Further turns after the end change nothing.
  lemma DoneStays(t: string, ph: string, v: string, n: nat, m: nat)
    requires HaltsIn(t, ph, v, n) && n <= m
    ensures Turns(t, ph, v, m) == Turns(t, ph, v, n)
  {
    TurnWithoutOccurrence(Turns(t, ph, v, n), ph, v);
    IterateFixed(Turning(ph, v), t, n, m);
  }

  // The scan for the first occurrence.
  method FindFirst(result: string, placeholder: string) returns (idx: int)
    ensures idx == FirstFrom(result, placeholder, 0)
  {
    idx := -1;
    var i := 0;
    FirstFromSpec(result, placeholder, 0);
    while i < |result| - |placeholder| + 1
      invariant 0 <= i <= |result| + 1
      invariant forall j: nat :: j < i ==> !OccursAt(result, placeholder, j)
    {
      if result[i..i + |placeholder|] == placeholder {
        FirstIs(result, placeholder, i);
        return i;
      }
      i := i + 1;
    }
    assert forall j: nat :: j >= i ==> !OccursAt(result, placeholder, j);
  }

  // The code itself, for every input on which it returns at all (n is any number of turns
  // that suffices): the result is where the turns end, free of the placeholder.
  method ReplacePlaceholder(template: string, placeholder: string, value: string, ghost n: nat)
    returns (result: string)
    requires HaltsIn(template, placeholder, value, n)
    ensures result == Turns(template, placeholder, value, n)
    ensures !Occurs(result, placeholder)
  {
    result := template;
    ghost var turns := 0;
    while true
      invariant result == Turns(template, placeholder, value, turns)
      invariant turns <= n
      decreases n - turns
    {
      var idx := FindFirst(result, placeholder);
      NoneMeansNoFirst(result, placeholder);
      if idx == -1 {
        DoneStays(template, placeholder, value, turns, n);
        break;
      }
      FirstFromSpec(result, placeholder, 0);
      TurnAtFirst(result, placeholder, value, idx);
      result := result[..idx] + value + result[idx + |placeholder|..];
      turns := turns + 1;
    }
  }

  // ----- a value shorter than the placeholder -----

  lemma {:induction false} ShorterHalts(t: string, ph: string, v: string) returns (n: nat)
    requires |v| < |ph|
    ensures HaltsIn(t, ph, v, n)
    decreases |t|
  {
    NoneMeansNoFirst(t, ph);
    if Occurs(t, ph) {
      FirstFromSpec(t, ph, 0);
      n := ShorterHalts(Turn(t, ph, v), ph, v);
      TurnFirst(t, ph, v, n);
      n := n + 1;
    } else {
      n := 0;
    }
  }

  // ----- occurrences in composed strings -----

  lemma OccurrenceInRest(done: string, rest: string, ph: string, i: nat)
    ensures OccursAt(done + rest, ph, |done| + i) <==> OccursAt(rest, ph, i)
  {
    if |done| + i + |ph| <= |done + rest| {
      assert (done + rest)[|done| + i..|done| + i + |ph|] == rest[i..i + |ph|];
    }
  }

  lemma OccurrenceInStart(start: string, x: string, y: string, ph: string, i: nat)
    requires i + |ph| <= |start|
    ensures OccursAt(start + x, ph, i) <==> OccursAt(start + y, ph, i)
  {
    assert (start + x)[i..i + |ph|] == start[i..i + |ph|];
    assert (start + y)[i..i + |ph|] == start[i..i + |ph|];
  }

  lemma OccurrenceChar(t: string, ph: string, i: nat, k: nat)
    requires OccursAt(t, ph, i) && k < |ph|
    ensures t[i + k] == ph[k] && t[i + k] in ph
  {
    assert t[i..i + |ph|][k] == t[i + k];
  }

  // An occurrence that meets an inserted value contains one of its ends or lies inside it.
  lemma MeetingOccurrence(a: string, v: string, b: string, ph: string, i: nat)
    requires v != "" && ph != "" && i < |a| + |v| && |a| < i + |ph| && OccursAt(a + v + b, ph, i)
    ensures v[0] in ph || v[|v| - 1] in ph || Occurs(v, ph)
  {
    var t := a + v + b;
    if i <= |a| {
      OccurrenceChar(t, ph, i, |a| - i);
      assert t[|a|] == v[0];
    } else if i + |ph| >= |a| + |v| {
      OccurrenceChar(t, ph, i, |a| + |v| - 1 - i);
      assert t[|a| + |v| - 1] == v[|v| - 1];
    } else {
      assert t[i..i + |ph|] == v[i - |a|..i - |a| + |ph|];
      assert OccursAt(v, ph, i - |a|);
    }
  }

  // ----- a value that cannot take part in an occurrence -----

  // Neither end of the value can lie in an occurrence, nor can a whole occurrence.
  ghost predicate Inert(ph: string, v: string) {
    v != "" && v[0] !in ph && v[|v| - 1] !in ph && !Occurs(v, ph)
  }

  // In particular a non-empty value that shares no character with the placeholder.
  lemma SharingNothingIsInert(ph: string, v: string)
    requires ph != "" && v != "" && forall i :: 0 <= i < |v| ==> v[i] !in ph
    ensures Inert(ph, v)
  {
    forall i: nat | i <= |v| ensures !OccursAt(v, ph, i) {
      if OccursAt(v, ph, i) { OccurrenceChar(v, ph, i, 0); }
    }
  }

  // Leftmost, non-overlapping, one pass.
  function ReplaceAll(t: string, ph: string, v: string): string
    requires ph != ""
  {
    if |t| < |ph| then t
    else if t[..|ph|] == ph then v + ReplaceAll(t[|ph|..], ph, v)
    else [t[0]] + ReplaceAll(t[1..], ph, v)
  }

  lemma NoneInTail(t: string, ph: string, j: nat)
    requires t != "" && !OccursAt(t, ph, 1 + j)
    ensures !OccursAt(t[1..], ph, j)
  {
    assert t == [t[0]] + t[1..];
    OccurrenceInRest([t[0]], t[1..], ph, j);
  }

  lemma {:induction false} ReplaceAllSkips(t: string, ph: string, v: string, i: nat)
    requires ph != "" && i <= |t| && forall j: nat :: j < i ==> !OccursAt(t, ph, j)
    ensures ReplaceAll(t, ph, v) == t[..i] + ReplaceAll(t[i..], ph, v)
  {
    if i == 0 {
      assert t[0..] == t;
    } else if |t| < |ph| {
      assert t[..i] + t[i..] == t;
    } else {
      assert !OccursAt(t, ph, 0) && t[0..|ph|] == t[..|ph|];
      assert t == [t[0]] + t[1..];
      forall j: nat | j < i - 1 ensures !OccursAt(t[1..], ph, j) { NoneInTail(t, ph, j); }
      ReplaceAllSkips(t[1..], ph, v, i - 1);
      assert t[1..][i - 1..] == t[i..];
      assert [t[0]] + t[1..][..i - 1] == t[..i];
    }
  }

  // No occurrence begins in done, which is finished; rest is still to be scanned.
  ghost predicate Settled(done: string, rest: string, ph: string) {
    forall i: nat :: i < |done| ==> !OccursAt(done + rest, ph, i)
  }

  ghost predicate FirstOf(t: string, ph: string, idx: nat) {
    OccursAt(t, ph, idx) && forall j: nat :: j < idx ==> !OccursAt(t, ph, j)
  }

  lemma FirstOccurrence(t: string, ph: string) returns (idx: nat)
    requires Occurs(t, ph)
    ensures FirstOf(t, ph, idx)
  {
    NoneMeansNoFirst(t, ph);
    FirstFromSpec(t, ph, 0);
    idx := FirstFrom(t, ph, 0);
  }

  lemma Associates(a: string, b: string, c: string)
    ensures a + (b + c) == a + b + c
  {}

  lemma SettledGrows(done: string, rest: string, ph: string, v: string, idx: nat)
    requires ph != "" && Inert(ph, v) && Settled(done, rest, ph) && FirstOf(rest, ph, idx)
    ensures Settled(done + rest[..idx] + v, rest[idx + |ph|..], ph)
  {
    var a, b := done + rest[..idx], rest[idx + |ph|..];
    forall i: nat | i < |a + v| ensures !OccursAt(a + v + b, ph, i) {
      if |a| < i + |ph| {
        if OccursAt(a + v + b, ph, i) { MeetingOccurrence(a, v, b, ph, i); }
      } else {
        assert a + (v + b) == a + v + b && a + rest[idx..] == done + rest;
        OccurrenceInStart(a, v + b, rest[idx..], ph, i);
        if i >= |done| { OccurrenceInRest(done, rest, ph, i - |done|); }
      }
    }
  }

  lemma FirstInRest(done: string, rest: string, ph: string, idx: nat)
    requires Settled(done, rest, ph) && FirstOf(rest, ph, idx)
    ensures FirstOf(done + rest, ph, |done| + idx)
  {
    OccurrenceInRest(done, rest, ph, idx);
    forall j: nat | j < |done| + idx ensures !OccursAt(done + rest, ph, j) {
      if j >= |done| { OccurrenceInRest(done, rest, ph, j - |done|); }
    }
  }

  lemma NoneInRest(done: string, rest: string, ph: string)
    requires Settled(done, rest, ph) && !Occurs(rest, ph)
    ensures !Occurs(done + rest, ph)
  {
    forall j: nat | j <= |done + rest| ensures !OccursAt(done + rest, ph, j) {
      if j >= |done| { OccurrenceInRest(done, rest, ph, j - |done|); }
    }
  }

  lemma SpliceInRest(done: string, rest: string, ph: string, v: string, idx: nat)
    requires idx + |ph| <= |rest|
    ensures Splice(done + rest, |done| + idx, |done| + idx + |ph|, v) == done + rest[..idx] + v + rest[idx + |ph|..]
  {
    assert (done + rest)[..|done| + idx] == done + rest[..idx];
    assert (done + rest)[|done| + idx + |ph|..] == rest[idx + |ph|..];
  }

  // One turn replaces the first occurrence in the rest.
  lemma TurnInRest(done: string, rest: string, ph: string, v: string, idx: nat)
    requires Settled(done, rest, ph) && FirstOf(rest, ph, idx)
    ensures Turn(done + rest, ph, v) == done + rest[..idx] + v + rest[idx + |ph|..]
  {
    FirstInRest(done, rest, ph, idx);
    TurnAtFirst(done + rest, ph, v, |done| + idx);
    SpliceInRest(done, rest, ph, v, idx);
  }

  lemma ReplaceAllHere(t: string, ph: string, v: string)
    requires ph != "" && OccursAt(t, ph, 0)
    ensures ReplaceAll(t, ph, v) == v + ReplaceAll(t[|ph|..], ph, v)
  {
    assert t[..|ph|] == t[0..0 + |ph|];
  }

  lemma OccursInDrop(t: string, ph: string, idx: nat)
    requires OccursAt(t, ph, idx)
    ensures OccursAt(t[idx..], ph, 0) && t[idx..][|ph|..] == t[idx + |ph|..]
  {
    assert t[idx..][0..0 + |ph|] == t[idx..idx + |ph|];
  }

  lemma ReplaceAllAtFirst(t: string, ph: string, v: string, idx: nat)
    requires ph != "" && FirstOf(t, ph, idx)
    ensures ReplaceAll(t, ph, v) == t[..idx] + v + ReplaceAll(t[idx + |ph|..], ph, v)
  {
    ReplaceAllSkips(t, ph, v, idx);
    OccursInDrop(t, ph, idx);
    ReplaceAllHere(t[idx..], ph, v);
    Associates(t[..idx], v, ReplaceAll(t[idx + |ph|..], ph, v));
  }

  lemma ReplaceAllWithout(t: string, ph: string, v: string)
    requires ph != "" && !Occurs(t, ph)
    ensures ReplaceAll(t, ph, v) == t
  {
    ReplaceAllSkips(t, ph, v, |t|);
    assert t[..|t|] == t && t[|t|..] == "";
  }

  // Replacing the first occurrence moves it, the value in its place, into done.
  lemma InertStep(done: string, rest: string, ph: string, v: string, idx: nat)
    requires ph != "" && Inert(ph, v) && Settled(done, rest, ph) && FirstOf(rest, ph, idx)
    ensures var next, left := done + rest[..idx] + v, rest[idx + |ph|..];
            && Settled(next, left, ph)
            && Turn(done + rest, ph, v) == next + left
            && next + ReplaceAll(left, ph, v) == done + ReplaceAll(rest, ph, v)
  {
    var left := rest[idx + |ph|..];
    SettledGrows(done, rest, ph, v, idx);
    TurnInRest(done, rest, ph, v, idx);
    ReplaceAllAtFirst(rest, ph, v, idx);
    Associates(done, rest[..idx], v);
    Associates(done, rest[..idx] + v, ReplaceAll(left, ph, v));
  }

  lemma {:induction false} InertRuns(done: string, rest: string, ph: string, v: string) returns (n: nat)
    requires ph != "" && Inert(ph, v) && Settled(done, rest, ph)
    ensures HaltsIn(done + rest, ph, v, n)
    ensures Turns(done + rest, ph, v, n) == done + ReplaceAll(rest, ph, v)
    decreases |rest|
  {
    if Occurs(rest, ph) {
      var idx := FirstOccurrence(rest, ph);
      InertStep(done, rest, ph, v, idx);
      var k := InertRuns(done + rest[..idx] + v, rest[idx + |ph|..], ph, v);
      TurnFirst(done + rest, ph, v, k);
      n := k + 1;
    } else {
      n := 0;
      NoneInRest(done, rest, ph);
      ReplaceAllWithout(rest, ph, v);
    }
  }

  // With an inert value the rescanning loop ends, and is the one-pass replacement; no
  // placeholder is left in it.
  lemma InertIsReplaceAll(t: string, ph: string, v: string) returns (n: nat)
    requires ph != "" && Inert(ph, v)
    ensures HaltsIn(t, ph, v, n) && Turns(t, ph, v, n) == ReplaceAll(t, ph, v)
    ensures !Occurs(ReplaceAll(t, ph, v), ph)
  {
    n := InertRuns("", t, ph, v);
    assert "" + t == t;
    assert "" + ReplaceAll(t, ph, v) == ReplaceAll(t, ph, v);
  }

  // ----- inputs on which it never returns -----

  lemma OccursInMiddle(a: string, v: string, b: string, ph: string)
    requires Occurs(v, ph)
    ensures Occurs(a + v + b, ph)
  {
    var i: nat :| i <= |v| && OccursAt(v, ph, i);
    assert (a + v + b)[|a| + i..|a| + i + |ph|] == v[i..i + |ph|];
    assert OccursAt(a + v + b, ph, |a| + i);
  }

  lemma TurnKeepsOccurring(t: string, ph: string, v: string)
    requires Occurs(t, ph) && Occurs(v, ph)
    ensures Occurs(Turn(t, ph, v), ph)
  {
    var idx := FirstOccurrence(t, ph);
    TurnAtFirst(t, ph, v, idx);
    SpliceKeepsOccurring(t, idx, idx + |ph|, v, ph);
  }

  lemma SpliceKeepsOccurring(t: string, from: nat, to: nat, v: string, ph: string)
    requires from <= to <= |t| && Occurs(v, ph)
    ensures Occurs(Splice(t, from, to, v), ph)
  {
    OccursInMiddle(t[..from], v, t[to..], ph);
  }

  lemma {:induction false} KeepsOccurring(t: string, ph: string, v: string, n: nat)
    requires Occurs(t, ph) && Occurs(v, ph)
    ensures Occurs(Turns(t, ph, v, n), ph)
  {
    if n > 0 {
      KeepsOccurring(t, ph, v, n - 1);
      TurnKeepsOccurring(Turns(t, ph, v, n - 1), ph, v);
    }
  }

  // A value that contains the placeholder: the loop ends exactly when there is nothing to
  // replace.
  lemma ContainingHaltsIff(t: string, ph: string, v: string)
    requires Occurs(v, ph)
    ensures Halts(t, ph, v) <==> !Occurs(t, ph)
  {
    if Occurs(t, ph) {
      forall n: nat ensures !HaltsIn(t, ph, v, n) { KeepsOccurring(t, ph, v, n); }
    } else {
      assert HaltsIn(t, ph, v, 0);
    }
  }

  // ----- a value of the placeholder's length -----

  const BASE := 0x11_0000

  function Power(n: nat): nat {
    if n == 0 then 1 else BASE * Power(n - 1)
  }

  // A string read as a number, its characters being the digits.
  function Number(t: string): nat {
    if t == "" then 0 else Number(t[..|t| - 1]) * BASE + t[|t| - 1] as int
  }

  lemma {:induction false} NumberBelow(t: string)
    ensures Number(t) < Power(|t|)
  {
    if t != "" { NumberBelow(t[..|t| - 1]); }
  }

  lemma {:induction false} NumberTells(s: string, t: string)
    requires |s| == |t| && Number(s) == Number(t)
    ensures s == t
  {
    if s != "" {
      var n := |s| - 1;
      assert (Number(s[..n]) - Number(t[..n])) * BASE == t[n] as int - s[n] as int;
      NumberTells(s[..n], t[..n]);
      assert s == s[..n] + [s[n]] && t == t[..n] + [t[n]];
    }
  }

  lemma {:induction false} NumberConcat(s: string, t: string)
    ensures Number(s + t) == Number(s) * Power(|t|) + Number(t)
  {
    if t == "" {
      assert s + t == s;
    } else {
      var n := |t| - 1;
      NumberConcat(s, t[..n]);
      assert (s + t)[..|s + t| - 1] == s + t[..n];
      var x, y := Number(s), Power(n);
      assert x * Power(|t|) == x * y * BASE;
    }
  }

  // Replacing an occurrence moves the number in one direction, which the value decides.
  lemma SpliceMoves(t: string, ph: string, v: string, idx: nat)
    requires |v| == |ph| && OccursAt(t, ph, idx)
    ensures Number(v) < Number(ph) ==> Number(Splice(t, idx, idx + |ph|, v)) < Number(t)
    ensures Number(v) > Number(ph) ==> Number(Splice(t, idx, idx + |ph|, v)) > Number(t)
  {
    var a, b := t[..idx], t[idx + |ph|..];
    assert t == (a + ph) + b && Splice(t, idx, idx + |ph|, v) == (a + v) + b;
    NumberConcat(a + ph, b);
    NumberConcat(a + v, b);
    NumberConcat(a, ph);
    NumberConcat(a, v);
    Scaled(Number(a + v), Number(a + ph), Power(|b|));
    Scaled(Number(a + ph), Number(a + v), Power(|b|));
    PowerPositive(|b|);
  }

  lemma {:induction false} PowerPositive(n: nat)
    ensures Power(n) > 0
  {
    if n > 0 { PowerPositive(n - 1); }
  }

  lemma Scaled(x: nat, y: nat, p: nat)
    ensures x < y && p > 0 ==> x * p < y * p
  {
  }

  // What is left of the way of the number in its direction.
  function Way(t: string, up: bool): int {
    if up then Power(|t|) - Number(t) else Number(t)
  }

  lemma {:induction false} EqualLengthHalts(t: string, ph: string, v: string) returns (n: nat)
    requires |v| == |ph| && v != ph
    ensures HaltsIn(t, ph, v, n)
    decreases Way(t, Number(v) > Number(ph))
  {
    NumberBelow(t);
    if Occurs(t, ph) {
      var idx := FirstOccurrence(t, ph);
      TurnAtFirst(t, ph, v, idx);
      SpliceMoves(t, ph, v, idx);
      if Number(v) == Number(ph) { NumberTells(v, ph); }
      NumberBelow(Turn(t, ph, v));
      n := EqualLengthHalts(Turn(t, ph, v), ph, v);
      TurnFirst(t, ph, v, n);
      n := n + 1;
    } else {
      n := 0;
    }
  }

  // For a value no longer than the placeholder the loop ends exactly when the value is
  // another string or there is nothing to replace.
  lemma NotLongerHaltsIff(t: string, ph: string, v: string)
    requires |v| <= |ph|
    ensures Halts(t, ph, v) <==> v != ph || !Occurs(t, ph)
  {
    if v == ph {
      assert v[0..0 + |ph|] == ph;
      assert OccursAt(v, ph, 0);
      ContainingHaltsIff(t, ph, v);
    } else if |v| < |ph| {
      var n := ShorterHalts(t, ph, v);
    } else {
      var n := EqualLengthHalts(t, ph, v);
    }
  }

  // ----- a value that meets the placeholder on one side only -----

  predicate StartEnds(ph: string, v: string, k: nat)
    requires k <= |ph| && k <= |v|
  {
    v[..k] == ph[|ph| - k..]
  }

  predicate EndStarts(ph: string, v: string, k: nat)
    requires k <= |ph| && k <= |v|
  {
    v[|v| - k..] == ph[..k]
  }

  // No start of the value is an end of the placeholder, so a new occurrence never reaches
  // back from a value into what stands before it.
  predicate NeverBack(ph: string, v: string) {
    forall k :: 0 < k < |ph| && k <= |v| ==> !StartEnds(ph, v, k)
  }

  // No end of the value is a start of the placeholder, so a new occurrence never reaches
  // ahead from a value into what stands after it.
  predicate NeverAhead(ph: string, v: string) {
    forall k :: 0 < k < |ph| && k <= |v| ==> !EndStarts(ph, v, k)
  }

  // An occurrence across the end of a begins in a and ends with a start of v.
  lemma OverlapAcross(a: string, v: string, ph: string, i: nat)
    requires OccursAt(a + v, ph, i) && i < |a| < i + |ph|
    ensures StartEnds(ph, v, i + |ph| - |a|)
  {
    var t := a + v;
    assert v[..i + |ph| - |a|] == t[|a|..i + |ph|] == t[i..i + |ph|][|a| - i..];
  }

  lemma NoneAcross(a: string, v: string, ph: string)
    requires !Occurs(a, ph) && !Occurs(v, ph) && NeverBack(ph, v)
    ensures !Occurs(a + v, ph)
  {
    var t := a + v;
    forall i: nat | i <= |t| ensures !OccursAt(t, ph, i) {
      if OccursAt(t, ph, i) {
        if i + |ph| <= |a| {
          assert a[i..i + |ph|] == t[i..i + |ph|];
          assert OccursAt(a, ph, i);
        } else if i >= |a| {
          assert v[i - |a|..i - |a| + |ph|] == t[i..i + |ph|];
          assert OccursAt(v, ph, i - |a|);
        } else {
          OverlapAcross(a, v, ph, i);
        }
      }
    }
  }

  lemma OccursInPrefix(a: string, rest: string, ph: string, i: nat)
    requires OccursAt(a + rest, ph, i) && i + |ph| <= |a|
    ensures Occurs(a, ph)
  {
    assert a[i..i + |ph|] == (a + rest)[i..i + |ph|];
    assert OccursAt(a, ph, i);
  }

  // Where nothing occurs in a, an occurrence ends beyond it.
  lemma EndsBeyond(a: string, rest: string, ph: string, i: nat)
    requires OccursAt(a + rest, ph, i) && !Occurs(a, ph)
    ensures i + |ph| > |a|
  {
    if i + |ph| <= |a| { OccursInPrefix(a, rest, ph, i); }
  }

  lemma NoneBeforeFirst(t: string, ph: string, idx: nat)
    requires FirstOf(t, ph, idx) && ph != ""
    ensures !Occurs(t[..idx], ph)
  {
    forall i: nat | i <= idx ensures !OccursAt(t[..idx], ph, i) {
      if OccursAt(t[..idx], ph, i) {
        assert t[i..i + |ph|] == t[..idx][i..i + |ph|];
        assert OccursAt(t, ph, i);
      }
    }
  }

  // Nothing occurs in a; every turn takes at least one character of the rest.
  lemma {:induction false} NeverBackHalts(a: string, rest: string, ph: string, v: string) returns (n: nat)
    requires !Occurs(a, ph) && !Occurs(v, ph) && NeverBack(ph, v)
    ensures HaltsIn(a + rest, ph, v, n)
    decreases |rest|
  {
    var t := a + rest;
    if Occurs(t, ph) {
      assert ph != "" by { assert OccursAt(v, "", 0); }
      var idx := FirstOccurrence(t, ph);
      EndsBeyond(a, rest, ph, idx);
      NoneBeforeFirst(t, ph, idx);
      NoneAcross(t[..idx], v, ph);
      TurnAtFirst(t, ph, v, idx);
      n := NeverBackHalts(t[..idx] + v, t[idx + |ph|..], ph, v);
      TurnFirst(t, ph, v, n);
      n := n + 1;
    } else {
      n := 0;
    }
  }

  // An occurrence that begins in the value and reaches beyond it begins with an end of it.
  lemma OverlapAhead(h: string, v: string, rest: string, ph: string, i: nat)
    requires OccursAt(h + v + rest, ph, i) && |h| <= i < |h| + |v| < i + |ph|
    ensures EndStarts(ph, v, |h| + |v| - i)
  {
    var t := h + v + rest;
    assert v[i - |h|..] == t[i..|h| + |v|] == t[i..i + |ph|][..|h| + |v| - i];
  }

  lemma NoneFromValue(h: string, v: string, rest: string, ph: string, i: nat)
    requires !Occurs(v, ph) && NeverAhead(ph, v) && |v| >= |ph|
    requires |h| <= i < |h| + |v|
    ensures !OccursAt(h + v + rest, ph, i)
  {
    var t := h + v + rest;
    if OccursAt(t, ph, i) {
      if i + |ph| <= |h| + |v| {
        assert v[i - |h|..i - |h| + |ph|] == t[i..i + |ph|];
        assert OccursAt(v, ph, i - |h|);
      } else {
        OverlapAhead(h, v, rest, ph, i);
      }
    }
  }

  // Nothing occurs in head, and no occurrence begins in mid, which stops those from head.
  ghost predicate Stopped(head: string, mid: string, rest: string, ph: string) {
    && !Occurs(head, ph)
    && (if mid == "" then head == "" else |mid| >= |ph|)
    && forall i: nat :: |head| <= i < |head| + |mid| ==> !OccursAt(head + mid + rest, ph, i)
  }

  lemma CutMid(head: string, mid: string, rest: string, e: nat)
    requires e <= |mid|
    ensures head + mid + rest == head + mid[..e] + (mid[e..] + rest)
    ensures (head + mid + rest)[|head| + e..] == mid[e..] + rest
  {
    assert mid == mid[..e] + mid[e..];
  }

  // An occurrence that begins in head ends in mid: head gets shorter.
  lemma EndsInMid(head: string, mid: string, rest: string, ph: string, idx: nat)
    requires Stopped(head, mid, rest, ph) && OccursAt(head + mid + rest, ph, idx) && idx < |head|
    ensures 0 < idx + |ph| - |head| <= |mid|
  {
    assert head + mid + rest == head + (mid + rest);
    EndsBeyond(head, mid + rest, ph, idx);
  }

  lemma BackTurn(head: string, mid: string, rest: string, ph: string, v: string, idx: nat)
    requires FirstOf(head + mid + rest, ph, idx) && idx < |head| && 0 < idx + |ph| - |head| <= |mid|
    ensures Turn(head + mid + rest, ph, v) == head[..idx] + (v + mid[idx + |ph| - |head|..]) + rest
  {
    var t, left := head + mid + rest, mid[idx + |ph| - |head|..];
    TurnAtFirst(t, ph, v, idx);
    CutMid(head, mid, rest, idx + |ph| - |head|);
    assert t[..idx] == head[..idx];
    assert head[..idx] + v + (left + rest) == head[..idx] + (v + left) + rest;
  }

  lemma StoppedBack(head: string, mid: string, rest: string, ph: string, v: string, idx: nat)
    requires ph != "" && !Occurs(v, ph) && NeverAhead(ph, v) && |v| >= |ph|
    requires Stopped(head, mid, rest, ph) && FirstOf(head + mid + rest, ph, idx) && idx < |head|
    requires 0 < idx + |ph| - |head| <= |mid|
    requires head + mid + rest == head + mid[..idx + |ph| - |head|] + (mid[idx + |ph| - |head|..] + rest)
    ensures Stopped(head[..idx], v + mid[idx + |ph| - |head|..], rest, ph)
  {
    var t, e := head + mid + rest, idx + |ph| - |head|;
    var left, h := mid[e..], head[..idx];
    NoneBeforeFirst(t, ph, idx);
    assert t[..idx] == h;
    forall i: nat | |h| <= i < |h| + |v + left| ensures !OccursAt(h + (v + left) + rest, ph, i) {
      assert h + (v + left) + rest == h + v + (left + rest);
      if i < |h| + |v| {
        NoneFromValue(h, v, left + rest, ph, i);
      } else {
        NoneFromLeft(h + v, head + mid[..e], left + rest, ph, i - |h| - |v|);
      }
    }
  }

  // What stands before the rest has no part in an occurrence that begins in the rest.
  lemma NoneFromLeft(now: string, before: string, rest: string, ph: string, j: nat)
    requires !OccursAt(before + rest, ph, |before| + j)
    ensures !OccursAt(now + rest, ph, |now| + j)
  {
    OccurrenceInRest(now, rest, ph, j);
    OccurrenceInRest(before, rest, ph, j);
  }

  lemma {:induction false} NeverAheadHalts(head: string, mid: string, rest: string, ph: string, v: string)
    returns (n: nat)
    requires ph != "" && !Occurs(v, ph) && NeverAhead(ph, v) && |v| >= |ph| && Stopped(head, mid, rest, ph)
    ensures HaltsIn(head + mid + rest, ph, v, n)
    decreases |rest|, |head|
  {
    var t := head + mid + rest;
    if Occurs(t, ph) {
      var idx := FirstOccurrence(t, ph);
      if idx < |head| {
        EndsInMid(head, mid, rest, ph, idx);
        CutMid(head, mid, rest, idx + |ph| - |head|);
        BackTurn(head, mid, rest, ph, v, idx);
        StoppedBack(head, mid, rest, ph, v, idx);
        n := NeverAheadHalts(head[..idx], v + mid[idx + |ph| - |head|..], rest, ph, v);
      } else {
        assert idx >= |head| + |mid|;
        var left := t[idx + |ph|..];
        TurnAtFirst(t, ph, v, idx);
        NoneBeforeFirst(t, ph, idx);
        forall i: nat | idx <= i < idx + |v| ensures !OccursAt(t[..idx] + v + left, ph, i) {
          NoneFromValue(t[..idx], v, left, ph, i);
        }
        n := NeverAheadHalts(t[..idx], v, left, ph, v);
      }
      TurnFirst(t, ph, v, n);
      n := n + 1;
    } else {
      n := 0;
    }
  }

  // A value without the placeholder in it, of any length: the loop ends if new occurrences
  // can arise on one side of the value only, or on none.
  lemma OneSidedHalts(t: string, ph: string, v: string)
    requires !Occurs(v, ph) && (NeverBack(ph, v) || NeverAhead(ph, v))
    ensures Halts(t, ph, v)
  {
    assert ph != "" by { assert OccursAt(v, "", 0); }
    if |v| < |ph| {
      var n := ShorterHalts(t, ph, v);
    } else if NeverBack(ph, v) {
      assert "" + t == t;
      var n := NeverBackHalts("", t, ph, v);
    } else {
      assert "" + "" + t == t;
      var n := NeverAheadHalts("", "", t, ph, v);
    }
  }

  // ----- a value that meets the placeholder on both sides -----

  // Ones, then zeros: "01" does not occur even if a zero follows.
  predicate Falling(p: string) {
    forall j :: 0 <= j < |p| - 1 && p[j] == '0' ==> p[j + 1] == '0'
  }

  lemma FallingTurn(p: string, rest: string)
    requires Falling(p)
    ensures Turn(p + "01" + rest, "01", "1100") == p + "1100" + rest
  {
    var t := p + "01" + rest;
    assert t[|p|..|p| + 2] == "01";
    forall j: nat | j < |p| ensures !OccursAt(t, "01", j) {
      if OccursAt(t, "01", j) {
        OccurrenceChar(t, "01", j, 0);
        OccurrenceChar(t, "01", j, 1);
      }
    }
    TurnAtFirst(t, "01", "1100", |p|);
    assert t[..|p|] == p && t[|p| + 2..] == rest;
  }

  predicate Ones(a: string) {
    forall j :: 0 <= j < |a| ==> a[j] == '1'
  }

  // A turn between the ones before and whatever stands after.
  lemma InnerTurn(a: string, p: string, r: string, w: string, x: string, y: string)
    requires Ones(a) && Falling(p) && x == p + "01" + r && y == p + "1100" + r
    ensures Turn(a + x + w, "01", "1100") == a + y + w
  {
    FallingTurn(a + p, r + w);
    assert a + x + w == a + p + "01" + (r + w);
    assert a + y + w == a + p + "1100" + (r + w);
  }

  lemma TurnsOfFour(t0: string, t1: string, t2: string, t3: string, t4: string, ph: string, v: string)
    requires Turn(t0, ph, v) == t1 && Turn(t1, ph, v) == t2 && Turn(t2, ph, v) == t3 && Turn(t3, ph, v) == t4
    ensures Turns(t0, ph, v, 4) == t4
  {
    TurnFirst(t0, ph, v, 3);
    TurnFirst(t1, ph, v, 2);
    TurnFirst(t2, ph, v, 1);
    TurnFirst(t3, ph, v, 0);
  }

  // Four turns lead back to the start, with more around it.
  lemma FourTurns(a: string, w: string)
    requires Ones(a)
    ensures Turns(a + "001" + w, "01", "1100", 4) == a + "1111" + "001" + ("0000" + w)
  {
    var s0, s1, s2, s3, s4 := "001", "01100", "1100100", "110110000", "11110010000";
    InnerTurn(a, "0", "", w, s0, s1);
    InnerTurn(a, "", "100", w, s1, s2);
    InnerTurn(a, "110", "00", w, s2, s3);
    InnerTurn(a, "11", "10000", w, s3, s4);
    TurnsOfFour(a + s0 + w, a + s1 + w, a + s2 + w, a + s3 + w, a + s4 + w, "01", "1100");
    Regroup(a, w);
  }

  lemma Regroup(a: string, w: string)
    ensures a + "11110010000" + w == a + "1111" + "001" + ("0000" + w)
  {
    assert "11110010000" == "1111" + "001" + "0000";
    assert a + ("1111" + "001" + "0000") + w == a + "1111" + "001" + ("0000" + w);
  }

  lemma {:induction false} TurnsAdd(t: string, ph: string, v: string, m: nat, n: nat)
    ensures Turns(Turns(t, ph, v, m), ph, v, n) == Turns(t, ph, v, m + n)
  {
    if n > 0 { TurnsAdd(t, ph, v, m, n - 1); }
  }

  lemma {:induction false} KeepsReturning(a: string, w: string, n: nat)
    requires Ones(a)
    ensures Occurs(Turns(a + "001" + w, "01", "1100", 4 * n), "01")
    decreases n
  {
    var t := a + "001" + w;
    if n == 0 {
      assert t[|a| + 1..|a| + 3] == "01";
      assert OccursAt(t, "01", |a| + 1);
    } else {
      FourTurns(a, w);
      KeepsReturning(a + "1111", "0000" + w, n - 1);
      TurnsAdd(t, "01", "1100", 4, 4 * (n - 1));
    }
  }

  // Then the loop may never end, although the value does not contain the placeholder.
  lemma BothSidedMayNotEnd()
    ensures !Occurs("1100", "01") && !NeverBack("01", "1100") && !NeverAhead("01", "1100")
    ensures !Halts("001", "01", "1100")
  {
    forall i: nat | i <= 4 ensures !OccursAt("1100", "01", i) {
      if OccursAt("1100", "01", i) {
        OccurrenceChar("1100", "01", i, 0);
        OccurrenceChar("1100", "01", i, 1);
      }
    }
    assert StartEnds("01", "1100", 1) && EndStarts("01", "1100", 1);
    forall n: nat ensures !HaltsIn("001", "01", "1100", n) {
      KeepsReturning("", "", n);
      assert "" + "001" + "" == "001";
      if HaltsIn("001", "01", "1100", n) { DoneStays("001", "01", "1100", n, 4 * n); }
    }
  }

  // An empty placeholder occurs everywhere, so with one the loop never ends.
  lemma EmptyPlaceholderNeverHalts(t: string, v: string)
    ensures !Halts(t, "", v)
  {
    assert OccursAt(t, "", 0) && OccursAt(v, "", 0);
    ContainingHaltsIff(t, "", v);
  }

  // The alert message: whatever "%.2f" prints, "{{value}}" is replaced in one pass.
  const VALUE_PLACEHOLDER := "{{value}}"

  predicate FormattedNumber(v: string) {
    || v == "NaN" || v == "+Inf" || v == "-Inf"
    || (v != "" && forall i :: 0 <= i < |v| ==> v[i] in "-.0123456789")
  }

  lemma FormattedIsInert(v: string)
    requires FormattedNumber(v)
    ensures Inert(VALUE_PLACEHOLDER, v)
  {
    if |v| < |VALUE_PLACEHOLDER| {
      assert !Occurs(v, VALUE_PLACEHOLDER);
    }
    if v != "NaN" && v != "+Inf" && v != "-Inf" {
      forall i | 0 <= i < |v| ensures v[i] !in VALUE_PLACEHOLDER {
        assert v[i] in "-.0123456789";
      }
      SharingNothingIsInert(VALUE_PLACEHOLDER, v);
    }
  }

  lemma ValueIsReplacedInOnePass(template: string, v: string) returns (n: nat)
    requires FormattedNumber(v)
    ensures HaltsIn(template, VALUE_PLACEHOLDER, v, n)
    ensures Turns(template, VALUE_PLACEHOLDER, v, n) == ReplaceAll(template, VALUE_PLACEHOLDER, v)
  {
    FormattedIsInert(v);
    n := InertIsReplaceAll(template, VALUE_PLACEHOLDER, v);
  }
}
