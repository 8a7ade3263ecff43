/**
 * Paths and file names as `pathlib` sees them: a path is a parent plus a
 * name, and a name splits at its last dot into a stem and a suffix.
 */
module Paths {

  datatype Path = Root | Child(parent: Path, name: string)

  /** `Path.parent`: the root is its own parent. */
  function Parent(p: Path): Path {
    if p.Root? then Root else p.parent
  }

  /** `Path.name`: the root has the empty name. */
  function NameOf(p: Path): string {
    if p.Root? then "" else p.name
  }

  /** `str.rfind(c)`: the index of the last `c` in `s`, or -1 when there is none. */
  function RFind(s: string, c: char): (i: int)
    ensures -1 <= i < |s|
    ensures 0 <= i ==> s[i] == c
    ensures forall j :: i < j < |s| ==> s[j] != c
  {
    if s == [] then -1
    else if s[|s| - 1] == c then |s| - 1
    else RFind(s[..|s| - 1], c)
  }

  /** Where the suffix of `name` starts: at its last dot when that dot is
      neither the first nor the last character, otherwise at the end. */
  function SuffixStart(name: string): nat {
    var i := RFind(name, '.');
    if 0 < i < |name| - 1 then i else |name|
  }

  /** `PurePath.suffix`: empty, or a dot followed by at least one character
      and no further dot; what is left in front of it is never empty. */
  function Suffix(name: string): (x: string)
    ensures x == [] || (|x| >= 2 && x[0] == '.' && '.' !in x[1..])
    ensures x != [] ==> |x| < |name|
    ensures name[..|name| - |x|] + x == name
  {
    name[SuffixStart(name)..]
  }

  /** `PurePath.stem`: the name without its suffix. */
  function Stem(name: string): string {
    name[..SuffixStart(name)]
  }

  lemma StemSuffix(name: string)
    ensures Stem(name) + Suffix(name) == name
  {
  }

  /** `str.lower()` on the ASCII letters. */
  function LowerChar(c: char): char {
    if 'A' <= c <= 'Z' then (c as int + 32) as char else c
  }

  function Lower(s: string): (r: string)
    ensures |r| == |s|
    ensures forall i :: 0 <= i < |s| ==> r[i] == LowerChar(s[i])
  {
    seq(|s|, i requires 0 <= i < |s| => LowerChar(s[i]))
  }

  function Pow10(k: nat): (r: nat)
    ensures r >= 1
  {
    if k == 0 then 1 else 10 * Pow10(k - 1)
  }

  /** `str(n)`: the decimal digits of `n`, without leading zeros. */
  function Decimal(n: nat): (s: string)
    ensures |s| >= 1
    ensures forall i :: 0 <= i < |s| ==> '0' <= s[i] <= '9'
    ensures s[0] == '0' <==> n == 0
  {
    if n < 10 then ["0123456789"[n]]
    else Decimal(n / 10) + ["0123456789"[n % 10]]
  }

  /** The number a string of decimal digits stands for, `int(s)`. */
  function DigitsValue(s: string): nat
    requires forall i :: 0 <= i < |s| ==> '0' <= s[i] <= '9'
  {
    if s == [] then 0
    else 10 * DigitsValue(s[..|s| - 1]) + (s[|s| - 1] as int - '0' as int)
  }

  /** `int(str(n)) == n`: the digits spell the counter. */
  lemma {:induction false} DecimalValue(n: nat)
    ensures DigitsValue(Decimal(n)) == n
  {
    if n >= 10 {
      var s := Decimal(n);
      assert s[..|s| - 1] == Decimal(n / 10);
      DecimalValue(n / 10);
    }
  }

  /** Different counters are written differently. */
  lemma DecimalInjective(a: nat, b: nat)
    requires Decimal(a) == Decimal(b)
    ensures a == b
  {
    DecimalValue(a);
    DecimalValue(b);
  }

  /** A number of at least `10^k` is written with more than `k` digits. */
  lemma {:induction false} DecimalLength(n: nat, k: nat)
    requires n >= Pow10(k)
    ensures |Decimal(n)| > k
  {
    if k > 0 {
      assert n >= 10;
      DecimalLength(n / 10, k - 1);
    }
  }

  /** The name `stem + infix + str(n) + suffix` that a conflict-resolution
      loop tries for counter value `n`. */
  function CandidateName(name: string, infix: string, n: nat): string {
    Stem(name) + infix + Decimal(n) + Suffix(name)
  }

  /** Different counters give different candidate names. */
  lemma CandidateNameInjective(name: string, infix: string, a: nat, b: nat)
    requires CandidateName(name, infix, a) == CandidateName(name, infix, b)
    ensures a == b
  {
    var front, back := Stem(name) + infix, Suffix(name);
    var ca, cb := CandidateName(name, infix, a), CandidateName(name, infix, b);
    assert ca == front + Decimal(a) + back;
    assert cb == front + Decimal(b) + back;
    assert |Decimal(a)| == |Decimal(b)|;
    assert ca[|front|..|front| + |Decimal(a)|] == Decimal(a);
    assert cb[|front|..|front| + |Decimal(b)|] == Decimal(b);
    DecimalInjective(a, b);
  }

  /** `parent / CandidateName(...)` for the path `p`. */
  function Candidate(p: Path, infix: string, n: nat): Path {
    Child(Parent(p), CandidateName(NameOf(p), infix, n))
  }

  /** The last `c` of `a + b` is the last one of `b` if `b` has one. */
  lemma {:induction false} RFindConcat(a: string, b: string, c: char)
    ensures RFind(a + b, c) == if RFind(b, c) >= 0 then |a| + RFind(b, c) else RFind(a, c)
    decreases |b|
  {
    if b == [] {
      assert a + b == a;
    } else if b[|b| - 1] != c {
      assert (a + b)[..|a + b| - 1] == a + b[..|b| - 1];
      RFindConcat(a, b[..|b| - 1], c);
    }
  }

  lemma NoDot(s: string)
    requires '.' !in s
    ensures RFind(s, '.') == -1
  {
  }

  /** The only dot of a non-empty suffix is its first character. */
  lemma SuffixDot(name: string)
    ensures RFind(Suffix(name), '.') == if Suffix(name) == [] then -1 else 0
  {
    var suffix := Suffix(name);
    if suffix != [] {
      NoDot(suffix[1..]);
      assert suffix == [suffix[0]] + suffix[1..];
      RFindConcat([suffix[0]], suffix[1..], '.');
    }
  }

  /** Where the last dot of a candidate name is: that of the original name
      when it has no suffix, otherwise the dot that starts the suffix. */
  lemma CandidateLastDot(name: string, infix: string, n: nat)
    requires '.' !in infix
    ensures RFind(CandidateName(name, infix, n), '.')
            == if Suffix(name) == [] then RFind(name, '.')
               else |Stem(name)| + |infix| + |Decimal(n)|
  {
    var stem, suffix, digits := Stem(name), Suffix(name), Decimal(n);
    var middle := infix + digits;
    assert RFind(middle, '.') == -1 by {
      assert '.' !in digits;
      NoDot(middle);
    }
    assert RFind(stem + middle, '.') == RFind(stem, '.') by {
      RFindConcat(stem, middle, '.');
    }
    assert CandidateName(name, infix, n) == (stem + middle) + suffix;
    RFindConcat(stem + middle, suffix, '.');
    SuffixDot(name);
    if suffix == [] {
      assert stem == name;
    }
  }

  /**
   * A conflict-resolved name keeps the suffix of the original name, unless
   * that name ends in a dot after its first character ("notes." becomes
   * "notes._1", whose suffix is "._1").
   */
  lemma CandidateSuffix(name: string, infix: string, n: nat)
    requires '.' !in infix
    ensures Suffix(CandidateName(name, infix, n)) == Suffix(name)
            <==> !(|name| >= 2 && name[|name| - 1] == '.')
  {
    var cand := CandidateName(name, infix, n);
    CandidateLastDot(name, infix, n);
    var i := RFind(name, '.');
    if Suffix(name) == [] {
      assert |cand| >= |name| + 1;
      assert Suffix(cand) == [] <==> i <= 0;
      if |name| >= 2 && name[|name| - 1] == '.' {
        assert i == |name| - 1;
      }
    } else {
      var k := |Stem(name)| + |infix| + |Decimal(n)|;
      assert SuffixStart(name) == i;
      assert cand[k..] == Suffix(name);
      assert 0 < k < |cand| - 1;
      assert Suffix(cand) == Suffix(name);
    }
  }
}
