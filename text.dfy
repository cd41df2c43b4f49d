/** Character classes and string operations of Python's `str` that the modelled code relies on. */
module Text {

  /** Python's whitespace (`str.isspace`, `str.strip`, `str.split()` and `\s` in `re`). */
  predicate IsSpace(c: char) {
    var n := c as int;
    (9 <= n <= 13) || (28 <= n <= 32) || n == 0x85 || n == 0xA0 || n == 0x1680
    || (0x2000 <= n <= 0x200A) || n == 0x2028 || n == 0x2029 || n == 0x202F
    || n == 0x205F || n == 0x3000
  }

  predicate AllSpace(s: string) {
    forall i :: 0 <= i < |s| ==> IsSpace(s[i])
  }

  /** No whitespace at either end: what `strip()` leaves. */
  predicate Stripped(s: string) {
    s == [] || (!IsSpace(s[0]) && !IsSpace(s[|s| - 1]))
  }

  /** The first index at or after `i` that is not whitespace, or `|s|`. */
  function LeadEnd(s: string, i: nat): (k: nat)
    requires i <= |s|
    ensures i <= k <= |s|
    ensures forall j :: i <= j < k ==> IsSpace(s[j])
    ensures k < |s| ==> !IsSpace(s[k])
    decreases |s| - i
  {
    if i < |s| && IsSpace(s[i]) then LeadEnd(s, i + 1) else i
  }

  /** The start of the whitespace run that ends at `j`. */
  function TrailStart(s: string, j: nat): (k: nat)
    requires j <= |s|
    ensures k <= j
    ensures forall i :: k <= i < j ==> IsSpace(s[i])
    ensures k > 0 ==> !IsSpace(s[k - 1])
    decreases j
  {
    if j > 0 && IsSpace(s[j - 1]) then TrailStart(s, j - 1) else j
  }

  /** `s.strip()`: the text between the leading and the trailing whitespace. */
  function Strip(s: string): (r: string)
    ensures Stripped(r)
    ensures |r| <= |s|
  {
    var a := LeadEnd(s, 0);
    var b := TrailStart(s, |s|);
    if b <= a then [] else s[a..b]
  }

  /** `strip()` gives the empty string exactly for all-whitespace text. */
  lemma StripEmptyIff(s: string)
    ensures Strip(s) == [] <==> AllSpace(s)
  {
    var a := LeadEnd(s, 0);
    var b := TrailStart(s, |s|);
    if b <= a {
      forall i | 0 <= i < |s| ensures IsSpace(s[i]) {
        if a <= i { assert b <= i; }
      }
    } else {
      assert !IsSpace(s[a]);
    }
  }

  /** What `strip()` removes is whitespace on both sides of the result. */
  lemma StripSlice(s: string) returns (a: nat)
    ensures a + |Strip(s)| <= |s| && Strip(s) == s[a..a + |Strip(s)|]
    ensures AllSpace(s[..a]) && AllSpace(s[a + |Strip(s)|..])
  {
    var b := TrailStart(s, |s|);
    if b <= LeadEnd(s, 0) {
      a := 0;
      StripEmptyIff(s);
    } else {
      a := LeadEnd(s, 0);
    }
  }

  /** Stripping text that is already stripped changes nothing. */
  lemma StripStripped(s: string)
    requires Stripped(s)
    ensures Strip(s) == s
  {
    if s != [] {
      assert LeadEnd(s, 0) == 0;
      assert TrailStart(s, |s|) == |s|;
    }
  }

  /** A stripped, non-empty text followed by whitespace strips back to the text. */
  lemma StripTrailingSpace(a: string, w: string)
    requires a != [] && Stripped(a) && AllSpace(w)
    ensures Strip(a + w) == a
  {
    var s := a + w;
    assert LeadEnd(s, 0) == 0 by { assert s[0] == a[0]; }
    var b := TrailStart(s, |s|);
    assert s[|a| - 1] == a[|a| - 1];
    assert forall i :: |a| <= i < |s| ==> IsSpace(s[i]) by {
      forall i | |a| <= i < |s| ensures IsSpace(s[i]) { assert s[i] == w[i - |a|]; }
    }
    TrailStartAt(s, |s|, |a|);
    assert s[0..|a|] == a;
  }

  lemma {:induction false} TrailStartAt(s: string, j: nat, k: nat)
    requires k <= j <= |s| && k > 0 && !IsSpace(s[k - 1])
    requires forall i :: k <= i < j ==> IsSpace(s[i])
    ensures TrailStart(s, j) == k
    decreases j
  {
    if j > k {
      TrailStartAt(s, j - 1, k);
    }
  }

  lemma AllSpaceSlice(s: string, i: nat, j: nat)
    requires AllSpace(s) && i <= j <= |s|
    ensures AllSpace(s[i..j])
  {
  }

  /** `sep.join(parts)` */
  function Join(parts: seq<string>, sep: string): (r: string)
    ensures parts == [] ==> r == []
    ensures |parts| == 1 ==> r == parts[0]
  {
    if parts == [] then []
    else if |parts| == 1 then parts[0]
    else parts[0] + sep + Join(parts[1..], sep)
  }

  lemma {:induction false} JoinAppend(parts: seq<string>, p: string, sep: string)
    requires parts != []
    ensures Join(parts + [p], sep) == Join(parts, sep) + sep + p
    decreases |parts|
  {
    if |parts| == 1 {
      assert parts + [p] == [parts[0], p];
    } else {
      assert (parts + [p])[1..] == parts[1..] + [p];
      JoinAppend(parts[1..], p, sep);
    }
  }

  predicate StartsWith(s: string, p: string) {
    |p| <= |s| && s[..|p|] == p
  }

  predicate EndsWith(s: string, p: string) {
    |p| <= |s| && s[|s| - |p|..] == p
  }

  /** `t in s` for strings. */
  predicate Contains(s: string, t: string)
    decreases |s|
  {
    StartsWith(s, t) || (s != [] && Contains(s[1..], t))
  }

  predicate OccursAt(s: string, t: string, i: nat) {
    i + |t| <= |s| && s[i..i + |t|] == t
  }

  /** `t in s` holds exactly when `t` occurs at some position of `s`. */
  lemma {:induction false} ContainsIff(s: string, t: string)
    ensures Contains(s, t) <==> exists i: nat :: OccursAt(s, t, i)
    decreases |s|
  {
    if StartsWith(s, t) {
      assert OccursAt(s, t, 0);
    } else if s != [] {
      ContainsIff(s[1..], t);
      if Contains(s[1..], t) {
        var i: nat :| OccursAt(s[1..], t, i);
        assert s[i + 1..i + 1 + |t|] == s[1..][i..i + |t|];
        assert OccursAt(s, t, i + 1);
      }
      if exists i: nat :: OccursAt(s, t, i) {
        var i: nat :| OccursAt(s, t, i);
        assert i != 0;
        assert s[1..][i - 1..i - 1 + |t|] == s[i..i + |t|];
        assert OccursAt(s[1..], t, i - 1);
      }
    }
  }

  predicate IsAsciiUpper(c: char) { 'A' <= c <= 'Z' }

  /** `lower()` restricted to ASCII letters. */
  function LowerAscii(s: string): (r: string)
    ensures |r| == |s|
    ensures forall i :: 0 <= i < |s| ==>
      r[i] == if IsAsciiUpper(s[i]) then (s[i] as int + 32) as char else s[i]
  {
    if s == [] then [] else
      [if IsAsciiUpper(s[0]) then (s[0] as int + 32) as char else s[0]] + LowerAscii(s[1..])
  }

  /** `s.rstrip(c)` */
  function RStripChar(s: string, c: char): (r: string)
    ensures |r| <= |s| && r == s[..|r|]
    ensures r == [] || r[|r| - 1] != c
    ensures forall i :: |r| <= i < |s| ==> s[i] == c
  {
    if s != [] && s[|s| - 1] == c then RStripChar(s[..|s| - 1], c) else s
  }

  predicate IsDigit(c: char) { '0' <= c <= '9' }

  function DigitChar(d: nat): char
    requires d < 10
  {
    (d + '0' as int) as char
  }

  /** The number a string of decimal digits denotes. */
  function DigitsValue(s: string): nat
    requires forall i :: 0 <= i < |s| ==> IsDigit(s[i])
  {
    if s == [] then 0
    else
      assert IsDigit(s[|s| - 1]);
      DigitsValue(s[..|s| - 1]) * 10 + (s[|s| - 1] as int - '0' as int)
  }

  /** `str(n)` for a natural number: the decimal digits of `n`, without leading zeros. */
  function NatToString(n: nat): (r: string)
    ensures r != []
    ensures forall i :: 0 <= i < |r| ==> IsDigit(r[i])
    ensures DigitsValue(r) == n
    ensures r[0] == '0' ==> r == "0"
    decreases n
  {
    if n < 10 then [DigitChar(n)]
    else
      var r := NatToString(n / 10) + [DigitChar(n % 10)];
      assert r[..|r| - 1] == NatToString(n / 10);
      r
  }

  /** `str(i)` for an integer. */
  function IntToString(i: int): string {
    if i < 0 then "-" + NatToString(-i) else NatToString(i)
  }

  // `[p for p in ps if p]`: the non-empty strings of a list, in order.

  /** The positions from `k` on whose string is not empty, in increasing order. */
  function Kept(ps: seq<string>, k: nat): (idx: seq<nat>)
    requires k <= |ps|
    ensures forall j :: 0 <= j < |idx| ==> k <= idx[j] < |ps| && ps[idx[j]] != []
    decreases |ps| - k
  {
    if k == |ps| then []
    else (if ps[k] != [] then [k] else []) + Kept(ps, k + 1)
  }

  /** The kept positions are in increasing order, so filtering keeps the original order. */
  lemma {:induction false} KeptIncreasing(ps: seq<string>, k: nat)
    requires k <= |ps|
    ensures forall j, j' :: 0 <= j < j' < |Kept(ps, k)| ==> Kept(ps, k)[j] < Kept(ps, k)[j']
    decreases |ps| - k
  {
    if k < |ps| {
      KeptIncreasing(ps, k + 1);
      var tail := Kept(ps, k + 1);
      if ps[k] != [] {
        assert Kept(ps, k) == [k] + tail;
        forall j, j' | 0 <= j < j' < |Kept(ps, k)| ensures Kept(ps, k)[j] < Kept(ps, k)[j'] {
          assert Kept(ps, k)[j'] == tail[j' - 1];
          if j > 0 { assert Kept(ps, k)[j] == tail[j - 1]; }
        }
      }
    }
  }

  /** No non-empty string is left out: position `i` is the `j`-th kept one. */
  lemma {:induction false} KeptComplete(ps: seq<string>, k: nat, i: nat) returns (j: nat)
    requires k <= i < |ps| && ps[i] != []
    ensures j < |Kept(ps, k)| && Kept(ps, k)[j] == i
    decreases i - k
  {
    var pre := if ps[k] != [] then [k] else [];
    assert Kept(ps, k) == pre + Kept(ps, k + 1);
    if k == i {
      j := 0;
    } else {
      var j' := KeptComplete(ps, k + 1, i);
      j := |pre| + j';
    }
  }

  /** The non-empty strings from `k` on, in order. */
  function NonEmptyFrom(ps: seq<string>, k: nat): seq<string>
    requires k <= |ps|
    decreases |ps| - k
  {
    if k == |ps| then []
    else (if ps[k] != [] then [ps[k]] else []) + NonEmptyFrom(ps, k + 1)
  }

  /** Element `j` of the result is the string at the `j`-th kept position. */
  lemma {:induction false} NonEmptyIsKept(ps: seq<string>, k: nat)
    requires k <= |ps|
    ensures |NonEmptyFrom(ps, k)| == |Kept(ps, k)|
    ensures forall j :: 0 <= j < |Kept(ps, k)| ==> NonEmptyFrom(ps, k)[j] == ps[Kept(ps, k)[j]]
    decreases |ps| - k
  {
    if k < |ps| {
      NonEmptyIsKept(ps, k + 1);
      if ps[k] != [] {
        assert NonEmptyFrom(ps, k) == [ps[k]] + NonEmptyFrom(ps, k + 1);
        assert Kept(ps, k) == [k] + Kept(ps, k + 1);
        forall j | 0 <= j < |Kept(ps, k)| ensures NonEmptyFrom(ps, k)[j] == ps[Kept(ps, k)[j]] {
          if j > 0 {
            assert NonEmptyFrom(ps, k)[j] == NonEmptyFrom(ps, k + 1)[j - 1];
            assert Kept(ps, k)[j] == Kept(ps, k + 1)[j - 1];
          }
        }
      } else {
        assert NonEmptyFrom(ps, k) == NonEmptyFrom(ps, k + 1);
        assert Kept(ps, k) == Kept(ps, k + 1);
      }
    }
  }

  lemma NonEmptyCons(p: string, qs: seq<string>)
    ensures NonEmptyFrom([p] + qs, 0) == (if p != [] then [p] else []) + NonEmptyFrom(qs, 0)
  {
    NonEmptyStep([p] + qs, 0);
    NonEmptyShift(p, qs, 0);
  }

  lemma NonEmptyStep(ps: seq<string>, k: nat)
    requires k < |ps|
    ensures NonEmptyFrom(ps, k) == (if ps[k] != [] then [ps[k]] else []) + NonEmptyFrom(ps, k + 1)
  {
  }

  lemma {:induction false} NonEmptyShift(p: string, qs: seq<string>, k: nat)
    requires k <= |qs|
    ensures NonEmptyFrom([p] + qs, k + 1) == NonEmptyFrom(qs, k)
    decreases |qs| - k
  {
    if k < |qs| {
      NonEmptyShift(p, qs, k + 1);
      assert ([p] + qs)[k + 1] == qs[k];
    }
  }
}
