/** The string operations the handlers rely on (`indexOf`/`includes`,
    `split(sep)[i]`) and the decimal rendering JavaScript applies when a
    number is interpolated into a string. */
module Text {
  import opened Wrappers

  /** `p` occurs in `s` starting at index `i`. */
  predicate OccursAt(s: string, p: string, i: int)
  {
    0 <= i && i + |p| <= |s| && s[i..i + |p|] == p
  }

  /** `s.indexOf(p, from)`, with `None` for -1. */
  function IndexFrom(s: string, p: string, from: nat): (r: Option<nat>)
    ensures r.Some? ==> from <= r.value && OccursAt(s, p, r.value)
    ensures r.Some? ==> forall j :: from <= j < r.value ==> !OccursAt(s, p, j)
    ensures r.None? ==> forall j :: from <= j ==> !OccursAt(s, p, j)
    decreases |s| - from
  {
    if from + |p| > |s| then None
    else if s[from..from + |p|] == p then Some(from)
    else IndexFrom(s, p, from + 1)
  }

  /** `s.indexOf(p)`: the first occurrence, or `None` for -1. */
  function IndexOf(s: string, p: string): (r: Option<nat>)
    ensures r.Some? ==> OccursAt(s, p, r.value)
    ensures r.Some? ==> forall j :: 0 <= j < r.value ==> !OccursAt(s, p, j)
    ensures r.None? ==> forall j :: !OccursAt(s, p, j)
  {
    IndexFrom(s, p, 0)
  }

  /** `s.includes(p)` */
  predicate Contains(s: string, p: string)
  {
    IndexOf(s, p).Some?
  }

  /** The occurrence `IndexOf` finds in `a` is still the first one in `a + b`. */
  lemma FirstOccurrenceExtends(a: string, b: string, p: string)
    requires Contains(a, p)
    ensures IndexOf(a + b, p) == IndexOf(a, p)
  {
    var i := IndexOf(a, p).value;
    assert (a + b)[i..i + |p|] == a[i..i + |p|];
    assert OccursAt(a + b, p, i);
    forall j | 0 <= j < i
      ensures !OccursAt(a + b, p, j)
    {
      assert !OccursAt(a, p, j);
      assert (a + b)[j..j + |p|] == a[j..j + |p|];
    }
    var r := IndexOf(a + b, p);
    assert r.Some?;
    assert r.value == i;
  }

  /** A pattern ending in a character that `b` lacks, and absent from `a`,
      is absent from `a + b`: every occurrence would have to end inside `a`. */
  lemma AbsentWithTail(a: string, b: string, p: string)
    requires |p| > 0 && p[|p| - 1] !in b
    requires !Contains(a, p)
    ensures !Contains(a + b, p)
  {
    var s := a + b;
    forall j | 0 <= j
      ensures !OccursAt(s, p, j)
    {
      if j + |p| <= |a| {
        assert !OccursAt(a, p, j);
        assert s[j..j + |p|] == a[j..j + |p|];
      } else if j + |p| <= |s| {
        assert s[j..j + |p|][|p| - 1] == b[j + |p| - 1 - |a|];
        assert s[j..j + |p|] != p;
      }
    }
  }

  /** A pattern that contains a character absent from `s` does not occur in `s`. */
  lemma AbsentByCharacter(s: string, p: string, k: nat)
    requires k < |p| && p[k] !in s
    ensures !Contains(s, p)
  {
  }

  /** `p` does not occur at `i` when one of its characters differs there. */
  lemma DiffersAt(s: string, p: string, i: nat, k: nat)
    requires k < |p| && (i + |p| <= |s| ==> s[i + k] != p[k])
    ensures !OccursAt(s, p, i)
  {
  }

  /** A pattern whose first character `a` lacks, and absent from `b`, is
      absent from `a + b`: every occurrence would have to start inside `b`. */
  lemma AbsentWithHead(a: string, b: string, p: string)
    requires |p| > 0 && p[0] !in a
    requires !Contains(b, p)
    ensures !Contains(a + b, p)
  {
    var s := a + b;
    forall j | 0 <= j
      ensures !OccursAt(s, p, j)
    {
      if j < |a| && j + |p| <= |s| {
        assert s[j..j + |p|][0] == a[j];
        assert s[j..j + |p|] != p;
      } else if j + |p| <= |s| {
        assert !OccursAt(b, p, j - |a|);
        assert s[j..j + |p|] == b[j - |a|..j - |a| + |p|];
      }
    }
  }

  /** An occurrence is the first one when the text up to its last character
      holds no complete occurrence. */
  lemma FirstOccurrenceAt(s: string, p: string, i: nat)
    requires |p| > 0 && OccursAt(s, p, i)
    requires !Contains(s[..i + |p| - 1], p)
    ensures IndexOf(s, p) == Some(i)
  {
    forall j | 0 <= j < i
      ensures !OccursAt(s, p, j)
    {
      if j + |p| <= |s| {
        assert !OccursAt(s[..i + |p| - 1], p, j);
        assert s[..i + |p| - 1][j..j + |p|] == s[j..j + |p|];
      }
    }
  }

  /** `s.split(sep)[1]`: the text between the first and the second occurrence
      of `sep`, or after the first when there is no second; `None` (JavaScript's
      `undefined`) when `sep` does not occur. An empty `sep` splits into
      single characters. */
  function SecondPiece(s: string, sep: string): (r: Option<string>)
    ensures |sep| > 0 ==> (r.Some? <==> Contains(s, sep))
    ensures |sep| > 0 && r.Some? ==>
      var rest := s[IndexOf(s, sep).value + |sep|..];
      && |r.value| <= |rest| && r.value == rest[..|r.value|]
      && (forall k :: 0 <= k < |r.value| ==> !OccursAt(rest, sep, k))
      && (|r.value| == |rest| || OccursAt(rest, sep, |r.value|))
  {
    if |sep| == 0 then
      if |s| >= 2 then Some([s[1]]) else None
    else match IndexOf(s, sep)
      case None => None
      case Some(i) =>
        var rest := s[i + |sep|..];
        match IndexOf(rest, sep)
        case None => Some(rest)
        case Some(j) => Some(rest[..j])
  }

  /** `s.split(c)[0]` for every `c` in `stops` at once: the text before the
      first character of `stops`. */
  function TakeUntil(s: string, stops: set<char>): (r: string)
    ensures |r| <= |s| && r == s[..|r|]
    ensures forall k :: 0 <= k < |r| ==> r[k] !in stops
    ensures |r| < |s| ==> s[|r|] in stops
    decreases |s|
  {
    if s == [] || s[0] in stops then []
    else [s[0]] + TakeUntil(s[1..], stops)
  }

  // ---------------------------------------------------------------------
  // Decimal numerals

  predicate IsDigit(c: char)
  {
    '0' <= c <= '9'
  }

  /** Every character of `s` is a decimal digit. */
  predicate AllDigits(s: string)
    decreases |s|
  {
    |s| == 0 || (AllDigits(s[..|s| - 1]) && IsDigit(s[|s| - 1]))
  }

  function DigitChar(d: nat): (c: char)
    requires d < 10
    ensures IsDigit(c)
  {
    ('0' as int + d) as char
  }

  /** The number a string of decimal digits denotes. */
  function DecimalValue(s: string): nat
    requires AllDigits(s)
    decreases |s|
  {
    if s == [] then 0
    else DecimalValue(s[..|s| - 1]) * 10 + (s[|s| - 1] as int - '0' as int)
  }

  /** `String(n)` for a non-negative integer: the shortest decimal numeral of `n`. */
  function NatToString(n: nat): (r: string)
    ensures |r| > 0 && AllDigits(r)
    ensures |r| > 1 ==> r[0] != '0'
    ensures DecimalValue(r) == n
    decreases n
  {
    if n < 10 then [DigitChar(n)]
    else
      var r := NatToString(n / 10) + [DigitChar(n % 10)];
      assert r[..|r| - 1] == NatToString(n / 10);
      r
  }
}
