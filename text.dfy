/**
 * Character-level helpers the data store relies on: Python's notion of
 * whitespace (`str.isspace`), `str.strip()`, and decimal rendering of
 * natural numbers (used by `%d`-style formatting in messages and dates).
 */
module Text {

  /** Python's `str.isspace()` for a single character. */
  predicate IsSpace(c: char) {
    var k := c as int;
    (9 <= k <= 13) || (0x1C <= k <= 0x20) || k == 0x85 || k == 0xA0 || k == 0x1680
    || (0x2000 <= k <= 0x200A) || k == 0x2028 || k == 0x2029 || k == 0x202F
    || k == 0x205F || k == 0x3000
  }

  predicate AllSpace(s: string) {
    forall i :: 0 <= i < |s| ==> IsSpace(s[i])
  }

  /** `s.lstrip()`: `s` without its leading whitespace. */
  function TrimStart(s: string): (r: string)
    ensures |r| <= |s|
    ensures r != [] ==> !IsSpace(r[0]) && r[|r| - 1] == s[|s| - 1]
  {
    if s != [] && IsSpace(s[0]) then TrimStart(s[1..]) else s
  }

  /** `s.rstrip()`: `s` without its trailing whitespace. */
  function TrimEnd(s: string): (r: string)
    ensures |r| <= |s|
    ensures r != [] ==> !IsSpace(r[|r| - 1]) && r[0] == s[0]
  {
    if s != [] && IsSpace(s[|s| - 1]) then TrimEnd(s[..|s| - 1]) else s
  }

  /** `s.strip()`: `s` without whitespace at either end. */
  function Strip(s: string): (r: string)
    ensures |r| <= |s|
    ensures r != [] ==> !IsSpace(r[0]) && !IsSpace(r[|r| - 1])
  {
    TrimEnd(TrimStart(s))
  }

  /** `lstrip()` removes only a run of whitespace from the front. */
  lemma {:induction false} TrimStartSplit(s: string) returns (a: string)
    ensures s == a + TrimStart(s) && AllSpace(a)
  {
    if s != [] && IsSpace(s[0]) {
      var rest := TrimStartSplit(s[1..]);
      a := [s[0]] + rest;
      assert s == [s[0]] + s[1..];
      forall i | 0 <= i < |a| ensures IsSpace(a[i]) {
        if i > 0 { assert a[i] == rest[i - 1]; }
      }
    } else {
      a := [];
    }
  }

  /** `rstrip()` removes only a run of whitespace from the back. */
  lemma {:induction false} TrimEndSplit(s: string) returns (b: string)
    ensures s == TrimEnd(s) + b && AllSpace(b)
  {
    if s != [] && IsSpace(s[|s| - 1]) {
      var n := |s| - 1;
      var rest := TrimEndSplit(s[..n]);
      b := rest + [s[n]];
      assert TrimEnd(s) == TrimEnd(s[..n]);
      assert s == s[..n] + [s[n]];
      forall i | 0 <= i < |b| ensures IsSpace(b[i]) {
        if i < |rest| { assert b[i] == rest[i]; }
      }
    } else {
      b := [];
    }
  }

  /**
   * `strip()` removes whitespace only, and only at the two ends: the input is
   * the stripped text with a run of whitespace before it and one after it.
   */
  lemma StripInfix(s: string)
    ensures exists a, b :: s == a + Strip(s) + b && AllSpace(a) && AllSpace(b)
  {
    var a := TrimStartSplit(s);
    var b := TrimEndSplit(TrimStart(s));
    assert s == a + Strip(s) + b;
  }

  /** A string strips to `''` exactly when it is whitespace only. */
  lemma StripEmptyIff(s: string)
    ensures Strip(s) == [] <==> AllSpace(s)
  {
    TrimStartEmptyIff(s);
    TrimEndEmptyIff(TrimStart(s));
  }

  lemma {:induction false} TrimStartEmptyIff(s: string)
    ensures TrimStart(s) == [] <==> AllSpace(s)
  {
    if s != [] && IsSpace(s[0]) {
      TrimStartEmptyIff(s[1..]);
      assert AllSpace(s) <==> AllSpace(s[1..]) by {
        if AllSpace(s[1..]) {
          forall i | 0 <= i < |s| ensures IsSpace(s[i]) {
            if i > 0 { assert s[i] == s[1..][i - 1]; }
          }
        }
      }
    }
  }

  lemma {:induction false} TrimEndEmptyIff(s: string)
    ensures TrimEnd(s) == [] <==> AllSpace(s)
  {
    if s != [] && IsSpace(s[|s| - 1]) {
      var n := |s| - 1;
      TrimEndEmptyIff(s[..n]);
      assert AllSpace(s) <==> AllSpace(s[..n]) by {
        if AllSpace(s[..n]) {
          forall i | 0 <= i < |s| ensures IsSpace(s[i]) {
            if i < n { assert s[i] == s[..n][i]; }
          }
        }
      }
    }
  }

  /** Stripping is idempotent: a stripped string is its own strip. */
  lemma StripIdempotent(s: string)
    ensures Strip(Strip(s)) == Strip(s)
  {
    StripFixed(Strip(s));
  }

  /** A string with no whitespace at either end is unchanged by `strip()`. */
  lemma StripFixed(s: string)
    requires s != [] ==> !IsSpace(s[0]) && !IsSpace(s[|s| - 1])
    ensures Strip(s) == s
  {
    assert TrimStart(s) == s;
    assert TrimEnd(s) == s;
  }

  function DigitChar(d: nat): (c: char)
    requires d < 10
  {
    "0123456789"[d]
  }

  predicate IsDigit(c: char) {
    '0' <= c <= '9'
  }

  predicate AllDigits(s: string) {
    forall i :: 0 <= i < |s| ==> IsDigit(s[i])
  }

  /** Decimal rendering of a natural number, as Python's `str(n)` / `%d` give it. */
  function ShowNat(n: nat): (r: string)
    ensures r != [] && AllDigits(r)
  {
    if n < 10 then [DigitChar(n)] else ShowNat(n / 10) + [DigitChar(n % 10)]
  }

  /** The value of a string of decimal digits (leading zeros allowed). */
  function ReadNat(s: string): nat
    requires AllDigits(s)
  {
    if s == [] then 0 else 10 * ReadNat(s[..|s| - 1]) + (s[|s| - 1] as int - '0' as int)
  }

  /** Reading back a rendered number gives the number. */
  lemma {:induction false} ReadShowNat(n: nat)
    ensures ReadNat(ShowNat(n)) == n
  {
    var r := ShowNat(n);
    if n >= 10 {
      ReadShowNat(n / 10);
      assert r[..|r| - 1] == ShowNat(n / 10);
    }
  }

  function Pow10(k: nat): (p: nat)
    ensures p >= 1
  {
    if k == 0 then 1 else 10 * Pow10(k - 1)
  }

  /** A number below 10^k takes at most k digits. */
  lemma {:induction false} ShowNatWidth(n: nat, k: nat)
    requires 1 <= k && n < Pow10(k)
    ensures |ShowNat(n)| <= k
  {
    if n >= 10 {
      ShowNatWidth(n / 10, k - 1);
    }
  }

  function Zeros(k: nat): (z: string)
    ensures |z| == k && forall i :: 0 <= i < k ==> z[i] == '0'
  {
    if k == 0 then [] else Zeros(k - 1) + ['0']
  }

  /** `'%0*d' % (w, n)`: `n` in decimal, left-padded with zeros to width `w`. */
  function PadNat(n: nat, w: nat): (r: string)
    ensures AllDigits(r) && |r| == if |ShowNat(n)| < w then w else |ShowNat(n)|
  {
    var s := ShowNat(n);
    if |s| < w then Zeros(w - |s|) + s else s
  }

  /** Leading zeros do not change the value read. */
  lemma {:induction false} ReadNatZeros(k: nat, s: string)
    requires AllDigits(s)
    ensures AllDigits(Zeros(k) + s) && ReadNat(Zeros(k) + s) == ReadNat(s)
  {
    if s == [] {
      assert Zeros(k) + s == Zeros(k);
      ReadNatAllZeros(k);
    } else {
      var t := Zeros(k) + s;
      assert t[..|t| - 1] == Zeros(k) + s[..|s| - 1];
      ReadNatZeros(k, s[..|s| - 1]);
    }
  }

  lemma {:induction false} ReadNatAllZeros(k: nat)
    ensures ReadNat(Zeros(k)) == 0
  {
    if k > 0 {
      assert Zeros(k)[..k - 1] == Zeros(k - 1);
      ReadNatAllZeros(k - 1);
    }
  }

  /** A zero-padded number reads back as itself. */
  lemma ReadPadNat(n: nat, w: nat)
    ensures ReadNat(PadNat(n, w)) == n
  {
    ReadShowNat(n);
    if |ShowNat(n)| < w {
      ReadNatZeros(w - |ShowNat(n)|, ShowNat(n));
    }
  }
}
