/** Shared vocabulary of the model: option and result values, bytes, and the
  * decimal rendering of integers that several formatted names rely on. */
module Common {

  datatype Option<T> = None | Some(value: T)

  datatype Result<T, E> = Ok(value: T) | Err(error: E) {
    predicate IsOk() { this.Ok? }
  }

  /** One octet, as stored in a buffer or written on the wire. */
  type byte = x: int | 0 <= x < 256

  /** `n` zero bytes. */
  function Zeros(n: nat): (r: seq<byte>)
    ensures |r| == n
    ensures forall i :: 0 <= i < n ==> r[i] == 0
  {
    if n == 0 then [] else Zeros(n - 1) + [0]
  }

  /** The characters of a byte string (an `sstring` read as text). */
  function BytesToString(b: seq<byte>): (s: string)
    ensures |s| == |b| && forall i | 0 <= i < |b| :: s[i] as int == b[i]
  {
    seq(|b|, i requires 0 <= i < |b| => b[i] as char)
  }

  lemma BytesToStringInjective(a: seq<byte>, b: seq<byte>)
    requires BytesToString(a) == BytesToString(b)
    ensures a == b
  {
    assert |a| == |b|;
    forall i | 0 <= i < |a| ensures a[i] == b[i] {
      assert BytesToString(a)[i] == BytesToString(b)[i];
    }
  }

  /** Regrouping a concatenation (stated once so that proofs can regroup
    * large encodings without unfolding them). */
  lemma ConcatAssoc<T>(a: seq<T>, b: seq<T>, c: seq<T>)
    ensures (a + b) + c == a + (b + c)
  {
  }

  // ---------------------------------------------------------------------------
  // Decimal digits, as produced by fmt's `{}` / Go's strconv.Itoa and read back
  // by boost::lexical_cast or a `\d+` match.

  predicate IsDigit(c: char) { '0' <= c <= '9' }

  predicate AllDigits(s: string) { forall i :: 0 <= i < |s| ==> IsDigit(s[i]) }

  function DigitChar(d: nat): (c: char)
    requires d < 10
    ensures IsDigit(c)
  {
    ['0', '1', '2', '3', '4', '5', '6', '7', '8', '9'][d]
  }

  function DigitValue(c: char): (d: nat)
    requires IsDigit(c)
    ensures d < 10
  {
    (c as int - '0' as int) as nat
  }

  lemma DigitRoundTrip(d: nat)
    requires d < 10
    ensures DigitValue(DigitChar(d)) == d
  {
  }

  /** The shortest decimal spelling of `n` (no leading zeros). */
  function NatToString(n: nat): (s: string)
    decreases n
  {
    if n < 10 then [DigitChar(n)] else NatToString(n / 10) + [DigitChar(n % 10)]
  }

  /** Decimal spelling of a signed integer, with a leading '-' when negative. */
  function IntToString(i: int): (s: string)
  {
    if i < 0 then "-" + NatToString(-i) else NatToString(i)
  }

  /** The value of a non-empty run of decimal digits. */
  function DigitsValue(s: string): (n: nat)
    requires AllDigits(s)
    decreases |s|
  {
    if |s| == 0 then 0 else 10 * DigitsValue(s[..|s| - 1]) + DigitValue(s[|s| - 1])
  }

  lemma {:induction false} NatToStringDigits(n: nat)
    ensures |NatToString(n)| >= 1
    ensures AllDigits(NatToString(n))
    ensures DigitsValue(NatToString(n)) == n
    decreases n
  {
    if n >= 10 {
      NatToStringDigits(n / 10);
      var s := NatToString(n);
      assert s[..|s| - 1] == NatToString(n / 10);
      DigitRoundTrip(n % 10);
    } else {
      DigitRoundTrip(n);
    }
  }

  /** NatToString never starts with '0' except for zero itself. */
  lemma {:induction false} NatToStringNoLeadingZero(n: nat)
    ensures NatToString(n)[0] == '0' <==> n == 0
    decreases n
  {
    if n >= 10 {
      NatToStringNoLeadingZero(n / 10);
      NatToStringDigits(n / 10);
      var s := NatToString(n / 10);
      assert NatToString(n)[0] == s[0];
    }
  }

  lemma NatToStringInjective(a: nat, b: nat)
    requires NatToString(a) == NatToString(b)
    ensures a == b
  {
    NatToStringDigits(a);
    NatToStringDigits(b);
  }

  // ---------------------------------------------------------------------------
  // Substrings and prefixes (Go's strings.Contains / strings.HasPrefix).

  predicate HasPrefix(s: string, p: string) { |p| <= |s| && s[..|p|] == p }

  /** `sub` occurs in `s` at position `k`. */
  predicate OccursAt(s: string, sub: string, k: nat)
  {
    k + |sub| <= |s| && s[k..k + |sub|] == sub
  }

  ghost predicate Contains(s: string, sub: string)
  {
    exists k: nat :: OccursAt(s, sub, k)
  }

  /** A decision procedure for Contains: scan every start position. */
  function ContainsFrom(s: string, sub: string, k: nat): (b: bool)
    requires k <= |s| + 1
    ensures b <==> exists j: nat :: k <= j && OccursAt(s, sub, j)
    decreases |s| + 1 - k
  {
    if k + |sub| > |s| then false
    else if s[k..k + |sub|] == sub then assert OccursAt(s, sub, k); true
    else
      var rest := ContainsFrom(s, sub, k + 1);
      assert forall j: nat :: k <= j && OccursAt(s, sub, j) ==> j == k || k + 1 <= j;
      rest
  }

  function StringContains(s: string, sub: string): (b: bool)
    ensures b <==> Contains(s, sub)
  {
    var r := ContainsFrom(s, sub, 0);
    assert r <==> exists j: nat :: 0 <= j && OccursAt(s, sub, j);
    r
  }

  // ---------------------------------------------------------------------------
  // Splitting on a separator character.

  predicate NoChar(s: string, c: char) { forall i :: 0 <= i < |s| ==> s[i] != c }

  /** The fields of `s` between occurrences of `c`, empty fields included. */
  function Split(s: string, c: char): (r: seq<string>)
    ensures |r| >= 1
    decreases |s|
  {
    if s == [] then [""]
    else
      var rest := Split(s[1..], c);
      if s[0] == c then [""] + rest else [[s[0]] + rest[0]] + rest[1..]
  }

  lemma {:induction false} SplitNoChar(a: string, c: char)
    requires NoChar(a, c)
    ensures Split(a, c) == [a]
    decreases |a|
  {
    if a != [] {
      SplitNoChar(a[1..], c);
      assert [a[0]] + a[1..] == a;
    }
  }

  lemma {:induction false} SplitCons(a: string, c: char, b: string)
    requires NoChar(a, c)
    ensures Split(a + [c] + b, c) == [a] + Split(b, c)
    decreases |a|
  {
    if a == [] {
      assert a + [c] + b == [c] + b;
      assert ([c] + b)[1..] == b;
    } else {
      var s := a + [c] + b;
      assert s[0] == a[0] && s[1..] == a[1..] + [c] + b;
      SplitCons(a[1..], c, b);
      assert [a[0]] + a[1..] == a;
    }
  }

  lemma {:induction false} SplitCount(s: string, c: char)
    ensures NoChar(s, c) <==> |Split(s, c)| == 1
    decreases |s|
  {
    if s != [] {
      SplitCount(s[1..], c);
      if s[0] != c && NoChar(s[1..], c) {
        assert NoChar(s, c);
      } else if s[0] != c {
        assert !NoChar(s, c) by {
          var i :| 0 <= i < |s[1..]| && s[1..][i] == c;
          assert s[i + 1] == c;
        }
      }
    }
  }
}
