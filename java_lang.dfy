/**
 * The few pieces of the Java platform that the tunnel service relies on, stated
 * over Dafny values: the signed `byte`, `String.contains`, `String.replace`
 * (the CharSequence overload), the decimal rendering of an `int`, and the
 * lower-casing of printable ASCII text.
 */
module JavaLang {

  /** A Java `byte`: a signed 8-bit value. */
  newtype byte = b: int | -128 <= b < 128

  datatype Option<+T> = None | Some(value: T)

  /** True when `t` occurs in `s` starting at index `k`. */
  ghost predicate OccursAt(s: string, t: string, k: int)
  {
    0 <= k && k + |t| <= |s| && s[k..k + |t|] == t
  }

  /** `s.contains(t)`: `t` occurs somewhere in `s` (the empty string occurs everywhere). */
  function Contains(s: string, t: string): (r: bool)
    ensures r <==> exists k :: OccursAt(s, t, k)
    decreases |s|
  {
    if |s| < |t| then
      NoRoomNoOccurrence(s, t);
      false
    else if s[..|t|] == t then
      assert OccursAt(s, t, 0);
      true
    else if |s| == |t| then
      NoRoomNoOccurrence(s[1..], t);
      OccurrenceShift(s, t);
      false
    else
      OccurrenceShift(s, t);
      Contains(s[1..], t)
  }

  lemma NoRoomNoOccurrence(s: string, t: string)
    requires |s| < |t|
    ensures forall k :: !OccursAt(s, t, k)
  {
  }

  /** Past a mismatch at the front, the occurrences in `s` are those in `s[1..]`, shifted by one. */
  lemma OccurrenceShift(s: string, t: string)
    requires |t| <= |s| && s[..|t|] != t
    ensures (exists k :: OccursAt(s, t, k)) <==> (exists k :: OccursAt(s[1..], t, k))
  {
    assert !OccursAt(s, t, 0);
    forall k | OccursAt(s[1..], t, k)
      ensures OccursAt(s, t, k + 1)
    {
      assert s[1..][k..k + |t|] == s[k + 1..k + 1 + |t|];
    }
    forall k | OccursAt(s, t, k)
      ensures k > 0 && OccursAt(s[1..], t, k - 1)
    {
      assert s[1..][k - 1..k - 1 + |t|] == s[k..k + |t|];
    }
  }

  /**
   * `s.replace(p, q)`: every non-overlapping occurrence of `p`, scanning left
   * to right, is replaced by `q`. For an empty `p`, Java inserts `q` before
   * every character and at the end.
   */
  function ReplaceAll(s: string, p: string, q: string): string
    decreases |s|
  {
    if |p| == 0 then q + (if s == [] then [] else [s[0]] + ReplaceAll(s[1..], p, q))
    else if |s| < |p| then s
    else if s[..|p|] == p then q + ReplaceAll(s[|p|..], p, q)
    else [s[0]] + ReplaceAll(s[1..], p, q)
  }

  /** Java's lower-casing restricted to ASCII: `A`..`Z` become `a`..`z`. */
  function ToLowerAscii(s: string): (r: string)
    ensures |r| == |s|
    ensures forall i :: 0 <= i < |s| ==> r[i] == LowerAscii(s[i])
  {
    seq(|s|, i requires 0 <= i < |s| => LowerAscii(s[i]))
  }

  function LowerAscii(c: char): char
  {
    if 'A' <= c <= 'Z' then (c as int + 32) as char else c
  }

  function DigitChar(d: int): (c: char)
    requires 0 <= d < 10
    ensures '0' <= c <= '9'
  {
    ('0' as int + d) as char
  }

  /** The decimal digits of a natural number, most significant first. */
  function NatToString(n: nat): (r: string)
    ensures |r| > 0 && '0' <= r[|r| - 1] <= '9'
    ensures forall i :: 0 <= i < |r| ==> '0' <= r[i] <= '9'
  {
    if n < 10 then [DigitChar(n)] else NatToString(n / 10) + [DigitChar(n % 10)]
  }

  /** `Integer.toString(n)`, as used by `"" + n`. */
  function IntToString(n: int): (r: string)
    ensures |r| > 0 && '0' <= r[|r| - 1] <= '9'
    ensures forall i :: 0 <= i < |r| ==> r[i] == '-' || '0' <= r[i] <= '9'
    ensures n >= 0 ==> '-' !in r
  {
    if n < 0 then "-" + NatToString(-n) else NatToString(n)
  }

  /** The value a decimal string denotes; the partner of NatToString. */
  function DecimalValue(s: string): int
    requires forall i :: 0 <= i < |s| ==> '0' <= s[i] <= '9'
  {
    if s == [] then 0 else 10 * DecimalValue(s[..|s| - 1]) + (s[|s| - 1] as int - '0' as int)
  }

  lemma {:induction false} NatToStringRoundTrip(n: nat)
    ensures DecimalValue(NatToString(n)) == n
  {
    if n >= 10 {
      NatToStringRoundTrip(n / 10);
      var r := NatToString(n);
      assert r[..|r| - 1] == NatToString(n / 10);
    }
  }

  /** The value of an optionally negative decimal text; the partner of IntToString. */
  function IntValue(s: string): int
    requires |s| > 0 && (s[0] == '-' || '0' <= s[0] <= '9')
    requires forall i :: 1 <= i < |s| ==> '0' <= s[i] <= '9'
  {
    if s[0] == '-' then -DecimalValue(s[1..]) else DecimalValue(s)
  }

  lemma IntToStringRoundTrip(n: int)
    ensures IntValue(IntToString(n)) == n
  {
    if n < 0 {
      var s := IntToString(n);
      assert s[1..] == NatToString(-n);
      NatToStringRoundTrip(-n);
    } else {
      NatToStringRoundTrip(n);
    }
  }

  /** Different numbers have different decimal texts. */
  lemma IntToStringInjective(m: int, n: int)
    requires IntToString(m) == IntToString(n)
    ensures m == n
  {
    IntToStringRoundTrip(m);
    IntToStringRoundTrip(n);
  }

  // ---------------------------------------------------------------------
  // Facts about ReplaceAll used to reason about rule text piece by piece.
  // ---------------------------------------------------------------------

  /** The three ways one step of ReplaceAll can go. */
  lemma ReplaceShort(s: string, p: string, q: string)
    requires 0 < |p| && |s| < |p|
    ensures ReplaceAll(s, p, q) == s
  {
  }

  lemma ReplaceFront(s: string, p: string, q: string)
    requires 0 < |p| <= |s| && s[..|p|] == p
    ensures ReplaceAll(s, p, q) == q + ReplaceAll(s[|p|..], p, q)
  {
  }

  lemma ReplaceKeepFirst(s: string, p: string, q: string)
    requires 0 < |p| <= |s| && s[..|p|] != p
    ensures ReplaceAll(s, p, q) == [s[0]] + ReplaceAll(s[1..], p, q)
  {
  }

  lemma AppendAssoc<T>(x: seq<T>, y: seq<T>, z: seq<T>)
    ensures x + y + z == x + (y + z)
  {
  }

  /** Rebuilds `x + r` from its first character and the rest. */
  lemma ConsConcat(x: string, r: string)
    requires |x| > 0
    ensures [x[0]] + (x[1..] + r) == x + r
  {
    assert [x[0]] + x[1..] == x;
  }

  /** The first character of `x + y` is kept when it cannot start an occurrence here. */
  lemma KeepFirstOfConcat(x: string, y: string, p: string, q: string)
    requires 0 < |p| && |x| > 0
    requires |x + y| >= |p| ==> (x + y)[..|p|] != p
    ensures ReplaceAll(x + y, p, q) == [x[0]] + ReplaceAll(x[1..] + y, p, q)
  {
    var s := x + y;
    assert s[0] == x[0] && s[1..] == x[1..] + y;
    if |s| < |p| {
      ReplaceShort(s, p, q);
      ReplaceShort(s[1..], p, q);
    } else {
      ReplaceKeepFirst(s, p, q);
    }
  }

  /** A prefix free of the pattern's first character passes through unchanged. */
  lemma {:induction false} ReplaceSkip(x: string, y: string, p: string, q: string)
    requires |p| > 0 && p[0] !in x
    ensures ReplaceAll(x + y, p, q) == x + ReplaceAll(y, p, q)
    decreases |x|
  {
    if x == [] {
      assert x + y == y;
    } else {
      assert |x + y| >= |p| ==> (x + y)[..|p|][0] == x[0];
      KeepFirstOfConcat(x, y, p, q);
      ReplaceSkip(x[1..], y, p, q);
      ConsConcat(x, ReplaceAll(y, p, q));
    }
  }

  /** An occurrence of the pattern at the front is replaced. */
  lemma ReplaceHit(y: string, p: string, q: string)
    requires |p| > 0
    ensures ReplaceAll(p + y, p, q) == q + ReplaceAll(y, p, q)
  {
    assert (p + y)[..|p|] == p;
    assert (p + y)[|p|..] == y;
    ReplaceFront(p + y, p, q);
  }

  /**
   * A piece that starts with the pattern's first character, differs from the
   * pattern within its own length and holds that character nowhere else
   * passes through unchanged, whatever follows it.
   */
  lemma ReplaceMiss(x: string, y: string, p: string, q: string)
    requires |p| > 0 && |x| > 0 && x[0] == p[0] && p[0] !in x[1..]
    requires x[..Min(|x|, |p|)] != p[..Min(|x|, |p|)]
    ensures ReplaceAll(x + y, p, q) == x + ReplaceAll(y, p, q)
  {
    var m := Min(|x|, |p|);
    assert |x + y| >= |p| ==> (x + y)[..|p|] != p by {
      if |x + y| >= |p| {
        assert (x + y)[..|p|][..m] == x[..m];
      }
    }
    KeepFirstOfConcat(x, y, p, q);
    ReplaceSkip(x[1..], y, p, q);
    ConsConcat(x, ReplaceAll(y, p, q));
  }

  function Min(a: int, b: int): int { if a < b then a else b }

  /** A piece with no occurrence, followed by a character foreign to the pattern, passes through. */
  lemma {:induction false} ReplaceNoOccurrence(x: string, y: string, p: string, q: string)
    requires |p| > 0 && !Contains(x, p)
    requires y == [] || y[0] !in p
    ensures ReplaceAll(x + y, p, q) == x + ReplaceAll(y, p, q)
    decreases |x|
  {
    if x == [] {
      assert x + y == y;
    } else {
      assert |x + y| >= |p| ==> (x + y)[..|p|] != p by {
        if |x + y| >= |p| {
          if |x| >= |p| {
            assert (x + y)[..|p|] == x[..|p|];
            assert !OccursAt(x, p, 0);
          } else {
            assert (x + y)[..|p|][|x|] == y[0];
          }
        }
      }
      KeepFirstOfConcat(x, y, p, q);
      NotContainsTail(x, p);
      ReplaceNoOccurrence(x[1..], y, p, q);
      ConsConcat(x, ReplaceAll(y, p, q));
    }
  }

  lemma NotContainsTail(x: string, p: string)
    requires |x| > 0 && !Contains(x, p)
    ensures !Contains(x[1..], p)
  {
    forall k ensures !OccursAt(x[1..], p, k) {
      assert !OccursAt(x, p, k + 1);
      if 0 <= k && k + |p| <= |x| - 1 {
        assert x[1..][k..k + |p|] == x[k + 1..k + 1 + |p|];
      }
    }
  }

  /** With no occurrence, ReplaceAll is the identity. */
  lemma ReplaceNothing(x: string, p: string, q: string)
    requires |p| > 0 && !Contains(x, p)
    ensures ReplaceAll(x, p, q) == x
  {
    ReplaceNoOccurrence(x, [], p, q);
    assert x + [] == x;
  }

  lemma ReplaceEmpty(p: string, q: string)
    requires |p| > 0
    ensures ReplaceAll([], p, q) == []
  {
  }

  /**
   * ReplaceAll distributes over a concatenation whose right part starts with
   * a character that the pattern does not contain: no occurrence can
   * straddle the join.
   */
  lemma {:induction false} ReplaceConcatAtBarrier(x: string, z: string, p: string, q: string)
    requires |p| > 0 && |z| > 0 && z[0] !in p
    ensures ReplaceAll(x + z, p, q) == ReplaceAll(x, p, q) + ReplaceAll(z, p, q)
    decreases |x|
  {
    if x == [] {
      assert x + z == z;
    } else if |p| <= |x| {
      BarrierLongPrefix(x, z, p, q);
    } else {
      assert |x + z| >= |p| ==> (x + z)[..|p|] != p by {
        if |x + z| >= |p| {
          assert (x + z)[..|p|][|x|] == z[0];
        }
      }
      KeepFirstOfConcat(x, z, p, q);
      ReplaceConcatAtBarrier(x[1..], z, p, q);
      ReplaceShort(x, p, q);
      ReplaceShort(x[1..], p, q);
      ConsConcat(x, ReplaceAll(z, p, q));
    }
  }

  lemma {:induction false} BarrierLongPrefix(x: string, z: string, p: string, q: string)
    requires |p| > 0 && |z| > 0 && z[0] !in p && |p| <= |x|
    ensures ReplaceAll(x + z, p, q) == ReplaceAll(x, p, q) + ReplaceAll(z, p, q)
    decreases |x|, 0
  {
    var s := x + z;
    assert s[..|p|] == x[..|p|];
    if x[..|p|] == p {
      assert s[|p|..] == x[|p|..] + z;
      ReplaceFront(s, p, q);
      ReplaceFront(x, p, q);
      ReplaceConcatAtBarrier(x[|p|..], z, p, q);
      AppendAssoc(q, ReplaceAll(x[|p|..], p, q), ReplaceAll(z, p, q));
    } else {
      KeepFirstOfConcat(x, z, p, q);
      ReplaceKeepFirst(x, p, q);
      ReplaceConcatAtBarrier(x[1..], z, p, q);
      AppendAssoc([x[0]], ReplaceAll(x[1..], p, q), ReplaceAll(z, p, q));
    }
  }

  /** ReplaceAll distributes over a concatenation joined by such a character. */
  lemma ReplaceAroundBarrier(x: string, y: string, p: string, q: string, c: char)
    requires |p| > 0 && c !in p
    ensures ReplaceAll(x + [c] + y, p, q) == ReplaceAll(x, p, q) + [c] + ReplaceAll(y, p, q)
  {
    assert x + [c] + y == x + ([c] + y);
    ReplaceConcatAtBarrier(x, [c] + y, p, q);
    ReplaceSkip([c], y, p, q);
  }

  /** A last character that cannot end an occurrence passes through unchanged. */
  lemma {:induction false} ReplaceBeforeChar(x: string, d: char, p: string, q: string)
    requires |p| > 0 && p[|p| - 1] != d
    ensures ReplaceAll(x + [d], p, q) == ReplaceAll(x, p, q) + [d]
    decreases |x|
  {
    var s := x + [d];
    if |s| < |p| {
      ReplaceShort(s, p, q);
      ReplaceShort(x, p, q);
    } else if s[..|p|] == p {
      assert s[..|p|][|p| - 1] == s[|p| - 1];
      assert x[..|p|] == p;
      assert s[|p|..] == x[|p|..] + [d];
      ReplaceFront(s, p, q);
      ReplaceFront(x, p, q);
      ReplaceBeforeChar(x[|p|..], d, p, q);
    } else if x == [] {
      ReplaceKeepFirst(s, p, q);
      ReplaceShort(s[1..], p, q);
      ReplaceShort(x, p, q);
    } else {
      KeepFirstOfConcat(x, [d], p, q);
      ReplaceBeforeChar(x[1..], d, p, q);
      if |x| < |p| {
        ReplaceShort(x, p, q);
        ReplaceShort(x[1..], p, q);
      } else {
        assert s[..|p|] == x[..|p|];
        ReplaceKeepFirst(x, p, q);
      }
    }
  }

  /** The first character of a replacement result comes from the input or from the replacement. */
  lemma ReplaceFirstChar(s: string, p: string, q: string)
    requires |p| > 0 && |q| > 0
    ensures |ReplaceAll(s, p, q)| > 0 <==> |s| > 0
    ensures |s| > 0 ==> ReplaceAll(s, p, q)[0] == s[0] || ReplaceAll(s, p, q)[0] == q[0]
  {
  }
}
