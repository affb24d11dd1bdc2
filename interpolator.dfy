/** `interpolate_pwm`: from a dial's calibration table and a reference value
    (a fractional second, minute or hour) to a duty cycle. */
module Interpolator {
  import opened PyInt
  import opened CalibrationStore

  /** Strictly ascending. */
  predicate Increasing(s: seq<int>) {
    forall i, j :: 0 <= i < j < |s| ==> s[i] < s[j]
  }

  /** m is the smallest element of s. */
  predicate IsMin(m: int, s: set<int>) {
    m in s && forall x :: x in s ==> m <= x
  }

  lemma {:induction false} MinExists(s: set<int>) returns (m: int)
    requires s != {}
    ensures IsMin(m, s)
    decreases |s|
  {
    if forall x :: x !in s {
      assert false;
    }
    var y :| y in s;
    if s == {y} {
      m := y;
    } else {
      var m' := MinExists(s - {y});
      m := if y < m' then y else m';
      forall x | x in s
        ensures m <= x
      {
        if x != y {
          assert x in s - {y};
        }
      }
    }
  }

  /** The smallest element of a non-empty set. */
  function SetMin(s: set<int>): (m: int)
    requires s != {}
    ensures m in s && forall x :: x in s ==> m <= x
  {
    assert exists m :: IsMin(m, s) by {
      var m := MinExists(s);
    }
    var m :| IsMin(m, s);
    m
  }

  /** `sorted(...)` of the table's keys: the keys in ascending order, each once. */
  function SortedKeys(s: set<int>): (r: seq<int>)
    ensures Increasing(r)
    ensures |r| == |s|
    ensures forall x :: x in r <==> x in s
    decreases |s|
  {
    if s == {} then []
    else
      var m := SetMin(s);
      var rest := SortedKeys(s - {m});
      assert forall x :: x in rest ==> m < x;
      [m] + rest
  }

  /** Two ascending sequences with the same elements are equal, so the
      sorted key sequence does not depend on how the table was built. */
  lemma {:induction false} IncreasingUnique(a: seq<int>, b: seq<int>)
    requires Increasing(a) && Increasing(b)
    requires forall x :: x in a <==> x in b
    ensures a == b
  {
    assert a != [] ==> a[0] in a;
    assert b != [] ==> b[0] in b;
    if a != [] && b != [] {
      assert a[0] == b[0] by {
        assert a[0] in b && b[0] in a;
        assert forall x :: x in a ==> a[0] <= x;
        assert forall x :: x in b ==> b[0] <= x;
      }
      forall x
        ensures x in a[1..] <==> x in b[1..]
      {
        if x in a[1..] {
          assert x in b && x != b[0];
        }
        if x in b[1..] {
          assert x in a && x != a[0];
        }
      }
      IncreasingUnique(a[1..], b[1..]);
      assert a == [a[0]] + a[1..];
      assert b == [b[0]] + b[1..];
    }
  }

  /** The straight line through (lo, loPwm) and (hi, hiPwm), at v. */
  function Lerp(lo: int, hi: int, loPwm: int, hiPwm: int, v: real): real
    requires lo < hi
  {
    loPwm as real + (hiPwm - loPwm) as real * ((v - lo as real) / (hi - lo) as real)
  }

  /** The keys are an ascending list of entries of the table. */
  ghost predicate KeyList(keys: seq<int>, table: Table) {
    && 0 < |keys|
    && Increasing(keys)
    && forall j :: 0 <= j < |keys| ==> keys[j] in table
  }

  /** Adjacent keys i and i + 1 bracket v. */
  predicate Brackets(keys: seq<int>, i: int, v: real)
    requires 0 <= i && i + 1 < |keys|
  {
    keys[i] as real <= v <= keys[i + 1] as real
  }

  /** The truncated line through anchors i and i + 1, at v. */
  function OnSegment(keys: seq<int>, table: Table, i: int, v: real): int
    requires KeyList(keys, table) && 0 <= i && i + 1 < |keys|
  {
    Trunc(Lerp(keys[i], keys[i + 1], table[keys[i]], table[keys[i + 1]], v))
  }

  /** The scan of `interpolate_pwm` from pair i on: the first bracketing pair
      is interpolated; when none is left, the last key's duty cycle. */
  function ScanFrom(keys: seq<int>, table: Table, v: real, i: nat): int
    requires KeyList(keys, table) && i < |keys|
    decreases |keys| - i
  {
    if i + 1 < |keys| then
      if Brackets(keys, i, v) then OnSegment(keys, table, i, v)
      else ScanFrom(keys, table, v, i + 1)
    else table[keys[|keys| - 1]]
  }

  /** What `interpolate_pwm(table, v)` returns. */
  function Interpolate(table: Table, v: real): int
    requires table.Keys != {}
  {
    ScanFrom(SortedKeys(table.Keys), table, v, 0)
  }

  /** The largest key of a non-empty table. */
  function LargestKey(table: Table): (m: int)
    requires table.Keys != {}
    ensures m in table && forall k :: k in table ==> k <= m
  {
    var keys := SortedKeys(table.Keys);
    assert forall k :: k in table ==> k in keys;
    keys[|keys| - 1]
  }

  /** `interpolate_pwm`: sort the keys, scan the adjacent pairs for the first
      that brackets v and interpolate on it, else fall back to the duty cycle
      of the largest key. */
  method InterpolatePwm(table: Table, v: real) returns (pwm: int)
    requires table.Keys != {}
    ensures pwm == Interpolate(table, v)
  {
    var keys := SortedKeys(table.Keys);
    SortedKeyList(table);
    for i := 0 to |keys| - 1
      invariant ScanFrom(keys, table, v, i) == Interpolate(table, v)
    {
      if keys[i] as real <= v <= keys[i + 1] as real {
        var lowerKey, upperKey := keys[i], keys[i + 1];
        var lowerPwm, upperPwm := table[lowerKey], table[upperKey];
        return Trunc(Lerp(lowerKey, upperKey, lowerPwm, upperPwm, v));
      }
    }
    return table[keys[|keys| - 1]];
  }

  // ---------------------------------------------------------------------
  // Properties of the interpolation

  /** The line passes through its two anchors. */
  lemma LerpEnds(lo: int, hi: int, loPwm: int, hiPwm: int)
    requires lo < hi
    ensures Lerp(lo, hi, loPwm, hiPwm, lo as real) == loPwm as real
    ensures Lerp(lo, hi, loPwm, hiPwm, hi as real) == hiPwm as real
  {
  }

  /** Between its anchors the line stays between their duty cycles, and it
      rises (falls) with v when the duty cycles rise (fall). */
  lemma LerpBetween(lo: int, hi: int, loPwm: int, hiPwm: int, v: real, w: real)
    requires lo < hi && lo as real <= v <= w <= hi as real
    ensures var x, y := Lerp(lo, hi, loPwm, hiPwm, v), Lerp(lo, hi, loPwm, hiPwm, w);
      && (loPwm <= hiPwm ==> loPwm as real <= x <= y <= hiPwm as real)
      && (hiPwm <= loPwm ==> hiPwm as real <= y <= x <= loPwm as real)
  {
    var d := (hi - lo) as real;
    FractionOrder(lo, hi, v, w);
    ScaleBetween((hiPwm - loPwm) as real, (v - lo as real) / d, (w - lo as real) / d);
  }

  /** Between the anchors, the fraction of the way from lo to hi lies in
      [0, 1] and grows with the value. */
  lemma FractionOrder(lo: int, hi: int, v: real, w: real)
    requires lo < hi && lo as real <= v <= w <= hi as real
    ensures var d := (hi - lo) as real; 0.0 <= (v - lo as real) / d <= (w - lo as real) / d <= 1.0
  {
    var d := (hi - lo) as real;
    DivMonotone(0.0, v - lo as real, d);
    DivMonotone(v - lo as real, w - lo as real, d);
    DivMonotone(w - lo as real, d, d);
  }

  /** Scaling two fractions 0 <= t <= u <= 1 by delta keeps them between 0
      and delta, in order when delta >= 0 and reversed otherwise. */
  lemma ScaleBetween(delta: real, t: real, u: real)
    requires 0.0 <= t <= u <= 1.0
    ensures 0.0 <= delta ==> 0.0 <= delta * t <= delta * u <= delta
    ensures delta < 0.0 ==> delta <= delta * u <= delta * t <= 0.0
  {
    ScaleMonotone(delta, 0.0, t);
    ScaleMonotone(delta, t, u);
    ScaleMonotone(delta, u, 1.0);
  }

  /** A scan that starts at or before a bracketing pair i yields the truncated
      line of pair i: an earlier bracketing pair can only meet v at key i,
      where both lines give that key's duty cycle. */
  lemma {:induction false} ScanReachesSegment(keys: seq<int>, table: Table, v: real, from: nat, i: nat)
    requires KeyList(keys, table) && from <= i && i + 1 < |keys| && Brackets(keys, i, v)
    ensures ScanFrom(keys, table, v, from) == OnSegment(keys, table, i, v)
    decreases i - from
  {
    if Brackets(keys, from, v) {
      if from < i {
        assert keys[i] <= keys[from + 1];
        assert from + 1 == i;
        LerpEnds(keys[from], keys[i], table[keys[from]], table[keys[i]]);
        LerpEnds(keys[i], keys[i + 1], table[keys[i]], table[keys[i + 1]]);
      }
    } else {
      ScanReachesSegment(keys, table, v, from + 1, i);
    }
  }

  /** Inside the key range, `interpolate_pwm` is the truncated piecewise-linear
      function through the anchors: on any pair of adjacent keys that bracket
      v it equals that pair's truncated line, and it lies between the pair's
      two duty cycles. */
  lemma InterpolateOnSegment(table: Table, v: real, i: nat)
    requires table.Keys != {}
    requires var keys := SortedKeys(table.Keys); i + 1 < |keys| && Brackets(keys, i, v)
    ensures var keys := SortedKeys(table.Keys);
      var r, lo, hi := Interpolate(table, v), table[keys[i]], table[keys[i + 1]];
      && r == Trunc(Lerp(keys[i], keys[i + 1], lo, hi, v))
      && (lo <= hi ==> lo <= r <= hi)
      && (hi <= lo ==> hi <= r <= lo)
  {
    var keys := SortedKeys(table.Keys);
    SortedKeyList(table);
    ScanReachesSegment(keys, table, v, 0, i);
    TruncLerpBetween(keys[i], keys[i + 1], table[keys[i]], table[keys[i + 1]], v);
  }

  /** The sorted keys of a non-empty table are a key list of it. */
  lemma SortedKeyList(table: Table)
    requires table.Keys != {}
    ensures KeyList(SortedKeys(table.Keys), table)
  {
    var keys := SortedKeys(table.Keys);
    forall j | 0 <= j < |keys|
      ensures keys[j] in table
    {
      assert keys[j] in keys;
    }
  }

  /** Between its anchors the truncated line stays between their duty
      cycles. */
  lemma TruncLerpBetween(lo: int, hi: int, loPwm: int, hiPwm: int, v: real)
    requires lo < hi && lo as real <= v <= hi as real
    ensures var r := Trunc(Lerp(lo, hi, loPwm, hiPwm, v));
      && (loPwm <= hiPwm ==> loPwm <= r <= hiPwm)
      && (hiPwm <= loPwm ==> hiPwm <= r <= loPwm)
  {
    var x := Lerp(lo, hi, loPwm, hiPwm, v);
    LerpBetween(lo, hi, loPwm, hiPwm, v, v);
    if loPwm <= hiPwm {
      TruncBetween(loPwm, hiPwm, x);
    } else {
      TruncBetween(hiPwm, loPwm, x);
    }
  }

  /** At a key, `interpolate_pwm` returns exactly that key's duty cycle. */
  lemma InterpolateAtKey(table: Table, k: int)
    requires k in table
    ensures Interpolate(table, k as real) == table[k]
  {
    var keys := SortedKeys(table.Keys);
    var j := IndexOf(keys, k);
    TruncOfInt(table[k]);
    if |keys| == 1 {
      assert ScanFrom(keys, table, k as real, 0) == table[keys[0]];
    } else if j + 1 < |keys| {
      InterpolateOnSegment(table, k as real, j);
      LerpEnds(keys[j], keys[j + 1], table[keys[j]], table[keys[j + 1]]);
    } else {
      InterpolateOnSegment(table, k as real, j - 1);
      LerpEnds(keys[j - 1], keys[j], table[keys[j - 1]], table[keys[j]]);
    }
  }

  /** Where k stands in a sequence that holds it. */
  lemma IndexOf(keys: seq<int>, k: int) returns (j: nat)
    requires k in keys
    ensures j < |keys| && keys[j] == k
  {
    j :| j < |keys| && keys[j] == k;
  }

  lemma {:induction false} ScanFallsBack(keys: seq<int>, table: Table, v: real, from: nat)
    requires KeyList(keys, table) && from < |keys|
    requires forall i :: from <= i && i + 1 < |keys| ==> !Brackets(keys, i, v)
    ensures ScanFrom(keys, table, v, from) == table[keys[|keys| - 1]]
    decreases |keys| - from
  {
    if from + 1 < |keys| {
      ScanFallsBack(keys, table, v, from + 1);
    }
  }

  /** Below the smallest key, above the largest, or with a single anchor,
      `interpolate_pwm` returns the duty cycle of the LARGEST key. */
  lemma InterpolateFallback(table: Table, v: real)
    requires table.Keys != {}
    requires || (forall k :: k in table ==> v < k as real)
             || (forall k :: k in table ==> k as real < v)
             || |table.Keys| == 1
    ensures Interpolate(table, v) == table[LargestKey(table)]
  {
    var keys := SortedKeys(table.Keys);
    forall i | 0 <= i && i + 1 < |keys|
      ensures !Brackets(keys, i, v)
    {
      assert keys[i] in table && keys[i + 1] in table;
    }
    ScanFallsBack(keys, table, v, 0);
  }

  /** Every value v with the smallest key <= v <= the largest key is
      bracketed by some adjacent pair. */
  lemma {:induction false} SomePairBrackets(keys: seq<int>, v: real, from: nat) returns (i: nat)
    requires Increasing(keys) && from + 1 < |keys|
    requires keys[from] as real <= v <= keys[|keys| - 1] as real
    ensures from <= i && i + 1 < |keys| && Brackets(keys, i, v)
    decreases |keys| - from
  {
    if v <= keys[from + 1] as real {
      i := from;
    } else {
      i := SomePairBrackets(keys, v, from + 1);
    }
  }

  /** Within the key range, when the duty cycles grow with the key, the
      interpolated duty cycle grows with the reference value. */
  lemma InterpolateMonotone(table: Table, v: real, w: real)
    requires table.Keys != {}
    requires forall a, b :: a in table && b in table && a <= b ==> table[a] <= table[b]
    requires var keys := SortedKeys(table.Keys); keys[0] as real <= v <= w <= keys[|keys| - 1] as real
    ensures Interpolate(table, v) <= Interpolate(table, w)
  {
    var keys := SortedKeys(table.Keys);
    if |keys| == 1 {
      assert v == w;
    } else {
      var i := SomePairBrackets(keys, v, 0);
      var j := SomePairBrackets(keys, w, 0);
      assert keys[i] in table && keys[i + 1] in table && keys[j] in table && keys[j + 1] in table;
      var lo, hi := table[keys[i]], table[keys[i + 1]];
      assert lo <= hi;
      if i == j {
        InterpolateOnSegment(table, v, i);
        InterpolateOnSegment(table, w, i);
        var x, y := Lerp(keys[i], keys[i + 1], lo, hi, v), Lerp(keys[i], keys[i + 1], lo, hi, w);
        LerpBetween(keys[i], keys[i + 1], lo, hi, v, w);
        TruncMonotone(x, y);
      } else if i < j {
        InterpolateOnSegment(table, v, i);
        InterpolateOnSegment(table, w, j);
        assert keys[i + 1] <= keys[j];
        assert hi <= table[keys[j]];
      } else {
        // j < i: v and w both sit on key i
        assert keys[j + 1] <= keys[i];
        assert v == w;
      }
    }
  }

  /** Within the key range, when the duty cycles fall as the key grows, the
      interpolated duty cycle falls as the reference value grows. */
  lemma InterpolateAntitone(table: Table, v: real, w: real)
    requires table.Keys != {}
    requires forall a, b :: a in table && b in table && a <= b ==> table[b] <= table[a]
    requires var keys := SortedKeys(table.Keys); keys[0] as real <= v <= w <= keys[|keys| - 1] as real
    ensures Interpolate(table, w) <= Interpolate(table, v)
  {
    var keys := SortedKeys(table.Keys);
    if |keys| == 1 {
      assert v == w;
    } else {
      var i := SomePairBrackets(keys, v, 0);
      var j := SomePairBrackets(keys, w, 0);
      assert keys[i] in table && keys[i + 1] in table && keys[j] in table && keys[j + 1] in table;
      var lo, hi := table[keys[i]], table[keys[i + 1]];
      assert hi <= lo;
      if i == j {
        InterpolateOnSegment(table, v, i);
        InterpolateOnSegment(table, w, i);
        var x, y := Lerp(keys[i], keys[i + 1], lo, hi, v), Lerp(keys[i], keys[i + 1], lo, hi, w);
        LerpBetween(keys[i], keys[i + 1], lo, hi, v, w);
        TruncMonotone(y, x);
      } else if i < j {
        InterpolateOnSegment(table, v, i);
        InterpolateOnSegment(table, w, j);
        assert keys[i + 1] <= keys[j];
        assert table[keys[j]] <= hi;
      } else {
        // j < i: v and w both sit on key i
        assert keys[j + 1] <= keys[i];
        assert v == w;
      }
    }
  }

  /** If every duty cycle in the table lies in [lo, hi], so does the result. */
  lemma InterpolateInRange(table: Table, v: real, lo: int, hi: int)
    requires table.Keys != {}
    requires forall k :: k in table ==> lo <= table[k] <= hi
    ensures lo <= Interpolate(table, v) <= hi
  {
    var keys := SortedKeys(table.Keys);
    if |keys| > 1 && keys[0] as real <= v <= keys[|keys| - 1] as real {
      var i := SomePairBrackets(keys, v, 0);
      InterpolateOnSegment(table, v, i);
      assert keys[i] in table && keys[i + 1] in table;
    } else {
      if |keys| > 1 {
        forall k | k in table
          ensures v < k as real || k as real < v
        {
          assert k in keys;
        }
        if v < keys[0] as real {
          assert forall k :: k in table ==> v < k as real by {
            forall k | k in table ensures v < k as real {
              assert k in keys;
            }
          }
        } else {
          assert forall k :: k in table ==> k as real < v by {
            forall k | k in table ensures k as real < v {
              assert k in keys;
            }
          }
        }
      }
      InterpolateFallback(table, v);
    }
  }

  /** The worked example: anchors {0: 1000, 30: 2000, 60: 3000}. Between the
      anchors the line is followed; at 60 and on both sides outside the
      anchors the result is the largest key's duty cycle. */
  lemma ExampleTable(t: Table)
    requires t == map[0 := 1000, 30 := 2000, 60 := 3000]
    ensures SortedKeys(t.Keys) == [0, 30, 60]
    ensures && Interpolate(t, 15.0) == 1500 && Interpolate(t, 45.0) == 2500
            && Interpolate(t, 60.0) == 3000 && Interpolate(t, 70.0) == 3000
            && Interpolate(t, -5.0) == 3000
  {
    var keys := ExampleKeys(t);
    ExampleBetweenAnchors(t);
    InterpolateAtKey(t, 60);
    ExampleOutsideAnchors(t);
  }

  lemma ExampleBetweenAnchors(t: Table)
    requires t.Keys != {} && SortedKeys(t.Keys) == [0, 30, 60]
    requires 0 in t && 30 in t && 60 in t && t[0] == 1000 && t[30] == 2000 && t[60] == 3000
    ensures Interpolate(t, 15.0) == 1500 && Interpolate(t, 45.0) == 2500
  {
    assert Lerp(0, 30, 1000, 2000, 15.0) == 1500.0;
    InterpolateOnSegment(t, 15.0, 0);
    TruncOfInt(1500);
    assert Lerp(30, 60, 2000, 3000, 45.0) == 2500.0;
    InterpolateOnSegment(t, 45.0, 1);
    TruncOfInt(2500);
  }

  lemma ExampleOutsideAnchors(t: Table)
    requires t.Keys != {} && SortedKeys(t.Keys) == [0, 30, 60]
    requires 60 in t && t[60] == 3000
    ensures Interpolate(t, 70.0) == 3000 && Interpolate(t, -5.0) == 3000
  {
    assert LargestKey(t) == 60;
    forall k | k in t
      ensures -5.0 < k as real < 70.0
    {
      assert k in SortedKeys(t.Keys);
    }
    InterpolateFallback(t, 70.0);
    InterpolateFallback(t, -5.0);
  }

  lemma ExampleKeys(t: Table) returns (keys: seq<int>)
    requires t == map[0 := 1000, 30 := 2000, 60 := 3000]
    ensures keys == SortedKeys(t.Keys) == [0, 30, 60]
  {
    assert t.Keys == {0, 30, 60};
    keys := SortedKeys({0, 30, 60});
    SortedThree(keys, {0, 30, 60});
  }

  lemma SortedThree(keys: seq<int>, s: set<int>)
    requires s == {0, 30, 60} && Increasing(keys)
    requires forall x :: x in keys <==> x in s
    ensures keys == [0, 30, 60]
  {
    var three := [0, 30, 60];
    assert Increasing(three);
    forall x
      ensures x in keys <==> x in three
    {
      assert x in s <==> x in three;
    }
    IncreasingUnique(keys, three);
  }
}
