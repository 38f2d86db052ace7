/** Numbered candidates for a nickname: decimal suffixes never coincide, so some candidate within reach is free. */
module NicknameCandidates {
  /** A number in decimal, as a template literal prints it. */
  function Decimal(n: nat): string {
    if n < 10 then [Digit(n)] else Decimal(n / 10) + [Digit(n % 10)]
  }

  function Digit(d: nat): char
    requires d < 10
  {
    "0123456789"[d]
  }

  /** The number a string of digits stands for. */
  function Value(s: string): nat {
    if s == [] then 0 else 10 * Value(s[..|s| - 1]) + DigitValue(s[|s| - 1])
  }

  function DigitValue(c: char): nat {
    if '0' <= c <= '9' then c as nat - '0' as nat else 0
  }

  /** Reading back what was printed. */
  lemma {:induction false} DecimalReadsBack(n: nat)
    ensures Value(Decimal(n)) == n && Decimal(n) != []
  {
    assert DigitValue(Digit(n % 10)) == n % 10;
    if n < 10 {
      assert Decimal(n)[..0] == [];
      assert Value([]) == 0;
    } else {
      DecimalReadsBack(n / 10);
      assert Decimal(n)[..|Decimal(n)| - 1] == Decimal(n / 10);
    }
  }

  predicate IsDigit(c: char) {
    '0' <= c <= '9'
  }

  /** Decimal digits without a leading zero, unless it is the only one. */
  predicate Canonical(s: string) {
    s != [] && (forall i | 0 <= i < |s| :: IsDigit(s[i])) && (s[0] == '0' ==> |s| == 1)
  }

  /** What is printed is canonical: only zero starts with a zero. */
  lemma {:induction false} DecimalCanonical(n: nat)
    ensures Canonical(Decimal(n)) && (Decimal(n)[0] == '0' <==> n == 0)
  {
    if n >= 10 {
      DecimalCanonical(n / 10);
      assert Decimal(n)[0] == Decimal(n / 10)[0];
    }
  }

  /** The only canonical way to write a number is what is printed for it. */
  lemma {:induction false} CanonicalIsDecimal(s: string)
    requires Canonical(s)
    ensures Decimal(Value(s)) == s
  {
    var n := |s| - 1;
    assert s == s[..n] + [s[n]];
    DigitReadsBack(s[n]);
    if n == 0 {
      assert s[..0] == [];
      assert Value([]) == 0;
    } else {
      assert s[..n][0] == s[0];
      CanonicalIsDecimal(s[..n]);
      PositiveValue(s[..n]);
      DecimalAppend(Value(s[..n]), DigitValue(s[n]));
    }
  }

  lemma {:induction false} DigitReadsBack(c: char)
    requires IsDigit(c)
    ensures DigitValue(c) < 10 && Digit(DigitValue(c)) == c
  {
  }

  lemma {:induction false} DecimalAppend(n: nat, d: nat)
    requires n > 0 && d < 10
    ensures Decimal(10 * n + d) == Decimal(n) + [Digit(d)]
  {
  }

  lemma {:induction false} PositiveValue(s: string)
    requires Canonical(s) && s[0] != '0'
    ensures Value(s) > 0
  {
    var n := |s| - 1;
    assert IsDigit(s[n]);
    if n > 0 {
      assert s[..n][0] == s[0];
      PositiveValue(s[..n]);
    }
  }

  /** The basis itself first, then the basis with a counter from 1 on. */
  function Candidate(basis: string, k: nat): string {
    if k == 0 then basis else basis + Decimal(k)
  }

  lemma {:induction false} CandidatesDiffer(basis: string, i: nat, j: nat)
    requires Candidate(basis, i) == Candidate(basis, j)
    ensures i == j
  {
    DecimalReadsBack(i);
    DecimalReadsBack(j);
    assert i > 0 ==> Candidate(basis, i)[|basis|..] == Decimal(i);
    assert j > 0 ==> Candidate(basis, j)[|basis|..] == Decimal(j);
  }

  /** If the first n candidates are all among some names, there are at least n names. */
  lemma {:induction false} Pigeonhole(basis: string, names: set<string>, n: nat)
    requires forall k: nat | k < n :: Candidate(basis, k) in names
    ensures n <= |names|
  {
    if n > 0 {
      var last := Candidate(basis, n - 1);
      forall k: nat | k < n - 1 ensures Candidate(basis, k) in names - {last} {
        if Candidate(basis, k) == last {
          CandidatesDiffer(basis, k, n - 1);
        }
      }
      Pigeonhole(basis, names - {last}, n - 1);
    }
  }

  /** k is the number of the first candidate that is not taken. */
  ghost predicate FirstFree(taken: string -> bool, basis: string, k: nat) {
    !taken(Candidate(basis, k)) && forall j: nat | j < k :: taken(Candidate(basis, j))
  }

  /** Where the taken names are exactly a set of n names, some candidate numbered at most n is the first free one. */
  lemma {:induction false} FreeWithin(taken: string -> bool, names: set<string>, basis: string) returns (k: nat)
    requires forall x :: taken(x) <==> x in names
    ensures k <= |names| && FirstFree(taken, basis, k)
  {
    k := 0;
    while taken(Candidate(basis, k))
      invariant forall j: nat | j < k :: taken(Candidate(basis, j))
      invariant k <= |names|
      decreases |names| - k
    {
      Pigeonhole(basis, names, k + 1);
      k := k + 1;
    }
    Pigeonhole(basis, names, k);
  }
}
