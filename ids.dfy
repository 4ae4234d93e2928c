/**
 * Decimal rendering (`String(n)`), `padStart` with a fill character, and the
 * sequential display ids `<prefix><count + 1 padded to 3 digits>` that the
 * frontend builds for new reports (`RPT-`) and technicians (`TECH-`).
 */
module Ids {
  import opened Wrappers

  predicate IsDigit(c: char) { '0' <= c <= '9' }

  predicate AllDigits(s: string) { forall i :: 0 <= i < |s| ==> IsDigit(s[i]) }

  function DigitChar(d: nat): (c: char)
    requires d < 10
    ensures IsDigit(c)
  {
    ('0' as int + d) as char
  }

  function DigitValue(c: char): (d: nat)
    requires IsDigit(c)
    ensures d < 10 && DigitChar(d) == c
  {
    c as int - '0' as int
  }

  /** `String(n)` for a natural number: decimal digits without leading zeros. */
  function Decimal(n: nat): (s: string)
    ensures |s| >= 1 && AllDigits(s)
    ensures |s| > 1 ==> s[0] != '0'
  {
    if n < 10 then [DigitChar(n)] else Decimal(n / 10) + [DigitChar(n % 10)]
  }

  /** The number a string of decimal digits denotes; leading zeros are allowed. */
  function ParseDecimal(s: string): nat
    requires AllDigits(s)
    decreases |s|
  {
    if s == [] then 0 else 10 * ParseDecimal(s[..|s| - 1]) + DigitValue(s[|s| - 1])
  }

  lemma {:induction false} ParseDecimalOfDecimal(n: nat)
    ensures ParseDecimal(Decimal(n)) == n
  {
    if n >= 10 {
      ParseDecimalOfDecimal(n / 10);
      var s := Decimal(n);
      assert s[..|s| - 1] == Decimal(n / 10);
    }
  }

  lemma {:induction false} DecimalLength(n: nat)
    ensures n < 10 ==> |Decimal(n)| == 1
    ensures 10 <= n < 100 ==> |Decimal(n)| == 2
    ensures 100 <= n < 1000 ==> |Decimal(n)| == 3
    ensures n >= 1000 ==> |Decimal(n)| > 3
  {
    if n >= 10 {
      DecimalLength(n / 10);
    }
  }

  function Repeat(c: char, k: nat): (s: string)
    ensures |s| == k && forall i :: 0 <= i < k ==> s[i] == c
  {
    seq(k, _ => c)
  }

  /** `s.padStart(width, fill)`. */
  function PadStart(s: string, width: nat, fill: char): (r: string)
    ensures |r| == if |s| >= width then |s| else width
    ensures r[|r| - |s|..] == s
    ensures forall i :: 0 <= i < |r| - |s| ==> r[i] == fill
  {
    if |s| >= width then s else Repeat(fill, width - |s|) + s
  }

  lemma {:induction false} ParseDecimalLeadingZeros(z: nat, s: string)
    requires AllDigits(s)
    ensures AllDigits(Repeat('0', z) + s)
    ensures ParseDecimal(Repeat('0', z) + s) == ParseDecimal(s)
    decreases |s|
  {
    var t := Repeat('0', z) + s;
    if s == [] {
      assert t == Repeat('0', z);
      ZerosParseToZero(z);
    } else {
      assert t[..|t| - 1] == Repeat('0', z) + s[..|s| - 1];
      ParseDecimalLeadingZeros(z, s[..|s| - 1]);
    }
  }

  lemma {:induction false} ZerosParseToZero(z: nat)
    ensures ParseDecimal(Repeat('0', z)) == 0
  {
    if z > 0 {
      assert Repeat('0', z)[..z - 1] == Repeat('0', z - 1);
      ZerosParseToZero(z - 1);
    }
  }

  /** A new display id: `prefix` followed by `count + 1`, zero-padded to at least three digits. */
  function SequentialId(prefix: string, count: nat): string
  {
    prefix + PadStart(Decimal(count + 1), 3, '0')
  }

  /** The number carried by an id of the form `prefix` + digits, if it has that form. */
  function IdNumber(prefix: string, id: string): (r: Option<nat>)
  {
    if |id| > |prefix| && id[..|prefix|] == prefix && AllDigits(id[|prefix|..])
    then Some(ParseDecimal(id[|prefix|..]))
    else None
  }

  /** Reading the number back out of a generated id gives `count + 1`. */
  lemma SequentialIdNumber(prefix: string, count: nat)
    ensures IdNumber(prefix, SequentialId(prefix, count)) == Some(count + 1)
  {
    var digits := Decimal(count + 1);
    var padded := PadStart(digits, 3, '0');
    var id := SequentialId(prefix, count);
    assert id[..|prefix|] == prefix && id[|prefix|..] == padded;
    ParseDecimalOfDecimal(count + 1);
    if |digits| >= 3 {
      assert padded == digits;
    } else {
      assert padded == Repeat('0', 3 - |digits|) + digits;
      ParseDecimalLeadingZeros(3 - |digits|, digits);
    }
  }

  /** Different counts give different ids. */
  lemma SequentialIdInjective(prefix: string, a: nat, b: nat)
    ensures SequentialId(prefix, a) == SequentialId(prefix, b) <==> a == b
  {
    SequentialIdNumber(prefix, a);
    SequentialIdNumber(prefix, b);
  }

  /** The id is the prefix and at least three digits; below 999 existing entries it is the prefix and exactly three. */
  lemma SequentialIdShape(prefix: string, count: nat)
    ensures |SequentialId(prefix, count)| >= |prefix| + 3
    ensures SequentialId(prefix, count)[..|prefix|] == prefix
    ensures AllDigits(SequentialId(prefix, count)[|prefix|..])
    ensures count < 999 <==> |SequentialId(prefix, count)| == |prefix| + 3
  {
    DecimalLength(count + 1);
    var id := SequentialId(prefix, count);
    assert id[|prefix|..] == PadStart(Decimal(count + 1), 3, '0');
  }
}
