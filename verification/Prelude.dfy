/** Shared helpers: an option type, decimal numerals and whitespace stripping. */
module Prelude {

  datatype Option<+T> = None | Some(value: T) {
    function GetOr(default: T): T {
      match this
      case Some(v) => v
      case None => default
    }
  }

  datatype Result<+T, +E> = Ok(value: T) | Err(error: E)

  function Min(a: nat, b: nat): nat {
    if a <= b then a else b
  }

  function CeilDiv(n: nat, d: nat): nat
    requires d > 0
  {
    (n + d - 1) / d
  }

  lemma Associate<T>(a: seq<T>, b: seq<T>, c: seq<T>)
    ensures a + b + c == a + (b + c)
  {
  }

  lemma ConsIff<T>(a: T, xs: seq<T>, b: T, ys: seq<T>)
    ensures [a] + xs == [b] + ys <==> a == b && xs == ys
  {
    assert ([a] + xs)[0] == a && ([a] + xs)[1..] == xs && ([b] + ys)[0] == b && ([b] + ys)[1..] == ys;
  }

  // ----- Decimal numerals: Python's str(n) for n >= 0 -----

  function Digit(d: nat): char
    requires d < 10
  {
    "0123456789"[d]
  }

  function Decimal(n: nat): string {
    if n < 10 then [Digit(n)] else Decimal(n / 10) + [Digit(n % 10)]
  }

  function DigitValue(c: char): nat {
    if '0' <= c <= '9' then (c - '0') as nat else 0
  }

  /** Reads a numeral back; the partner that makes Decimal injective. */
  function DecimalValue(s: string): nat {
    if s == "" then 0 else 10 * DecimalValue(s[..|s| - 1]) + DigitValue(s[|s| - 1])
  }

  lemma {:induction false} DecimalReadsBack(n: nat)
    ensures DecimalValue(Decimal(n)) == n
    ensures Decimal(n) != ""
    ensures forall i :: 0 <= i < |Decimal(n)| ==> '0' <= Decimal(n)[i] <= '9'
  {
    if n < 10 {
      assert Decimal(n)[..0] == "";
    } else {
      DecimalReadsBack(n / 10);
      var s := Decimal(n);
      assert s[..|s| - 1] == Decimal(n / 10);
    }
  }

  lemma DecimalInjective(a: nat, b: nat)
    requires Decimal(a) == Decimal(b)
    ensures a == b
  {
    DecimalReadsBack(a);
    DecimalReadsBack(b);
  }

  // ----- str.strip() -----

  /** The characters str.strip() removes. */
  predicate IsSpace(c: char) {
    || '\U{0009}' <= c <= '\U{000D}' || '\U{001C}' <= c <= '\U{0020}'
    || c in {'\U{0085}', '\U{00A0}', '\U{1680}', '\U{2028}', '\U{2029}', '\U{202F}', '\U{205F}', '\U{3000}'}
    || '\U{2000}' <= c <= '\U{200A}'
  }

  function StripBy(s: string, drop: char -> bool): string {
    if s == "" then ""
    else if drop(s[0]) then StripBy(s[1..], drop)
    else if drop(s[|s| - 1]) then StripBy(s[..|s| - 1], drop)
    else s
  }

  function Strip(s: string): string {
    StripBy(s, IsSpace)
  }

  /** A text str.strip() leaves alone. */
  predicate Trimmed(s: string) {
    s == "" || (!IsSpace(s[0]) && !IsSpace(s[|s| - 1]))
  }

  /** StripBy returns a slice, with nothing to drop at its ends and only dropped characters outside. */
  lemma {:induction false} StripByIsSlice(s: string, drop: char -> bool) returns (lo: nat, hi: nat)
    ensures lo <= hi <= |s| && StripBy(s, drop) == s[lo..hi]
    ensures lo < hi ==> !drop(s[lo]) && !drop(s[hi - 1])
    ensures forall i :: 0 <= i < lo || hi <= i < |s| ==> drop(s[i])
  {
    if s == "" {
      lo, hi := 0, 0;
    } else if drop(s[0]) {
      lo, hi := StripByIsSlice(s[1..], drop);
      assert s[1..][lo..hi] == s[lo + 1..hi + 1];
      lo, hi := lo + 1, hi + 1;
    } else if drop(s[|s| - 1]) {
      lo, hi := StripByIsSlice(s[..|s| - 1], drop);
      assert s[..|s| - 1][lo..hi] == s[lo..hi];
    } else {
      lo, hi := 0, |s|;
      assert s[lo..hi] == s;
    }
  }

  lemma StripFixesTrimmed(s: string)
    ensures Trimmed(Strip(s))
    ensures Strip(s) == s <==> Trimmed(s)
  {
    var lo, hi := StripByIsSlice(s, IsSpace);
  }

  lemma DecimalTrimmed(n: nat)
    ensures Strip(Decimal(n)) == Decimal(n) && Decimal(n) != ""
  {
    DecimalReadsBack(n);
    StripFixesTrimmed(Decimal(n));
  }
}
