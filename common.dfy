/** Shared vocabulary of the pipeline: optional values and errors, sums and
    means over exact reals, first-occurrence argmax/argmin (pandas `idxmax` /
    `idxmin`), and the string operations the pipeline applies to cells and
    column headers (`str.strip`, `str.lower`, `in`, `str.isdigit`,
    `pd.to_numeric`). */
module Common {

  datatype Option<+T> = None | Some(value: T)

  /** The Python exceptions the modelled code can raise and not catch. */
  datatype Error = KeyError(key: string) | IndexError

  datatype Result<+T> = Ok(value: T) | Err(error: Error)

  // ---------------------------------------------------------------------------
  // Sums and means
  // ---------------------------------------------------------------------------

  /** Sum of a column; the sum of an empty column is 0, as in pandas. */
  function Sum(s: seq<real>): real
  {
    if s == [] then 0.0 else Sum(s[..|s| - 1]) + s[|s| - 1]
  }

  lemma {:induction false} SumAppend(a: seq<real>, b: seq<real>)
    ensures Sum(a + b) == Sum(a) + Sum(b)
    decreases |b|
  {
    if b == [] {
      assert a + b == a;
    } else {
      assert (a + b)[..|a + b| - 1] == a + b[..|b| - 1];
      SumAppend(a, b[..|b| - 1]);
    }
  }

  lemma {:induction false} SumNonNegative(s: seq<real>)
    requires forall i :: 0 <= i < |s| ==> s[i] >= 0.0
    ensures Sum(s) >= 0.0
    decreases |s|
  {
    if s != [] {
      SumNonNegative(s[..|s| - 1]);
    }
  }

  /** Arithmetic mean; pandas gives NaN for an empty column, callers guard it. */
  function Mean(s: seq<real>): real
    requires |s| > 0
  {
    Sum(s) / (|s| as real)
  }

  /** Index of the first maximum, as pandas `idxmax`. */
  function ArgMax(s: seq<real>): (k: nat)
    requires |s| > 0
    ensures k < |s|
    ensures forall j :: 0 <= j < |s| ==> s[j] <= s[k]
    ensures forall j :: 0 <= j < k ==> s[j] < s[k]
  {
    if |s| == 1 then 0
    else
      var k := ArgMax(s[..|s| - 1]);
      if s[|s| - 1] > s[k] then |s| - 1 else k
  }

  /** Index of the first minimum, as pandas `idxmin`. */
  function ArgMin(s: seq<real>): (k: nat)
    requires |s| > 0
    ensures k < |s|
    ensures forall j :: 0 <= j < |s| ==> s[k] <= s[j]
    ensures forall j :: 0 <= j < k ==> s[k] < s[j]
  {
    if |s| == 1 then 0
    else
      var k := ArgMin(s[..|s| - 1]);
      if s[|s| - 1] < s[k] then |s| - 1 else k
  }

  /** Column maximum. */
  function Max(s: seq<real>): (m: real)
    requires |s| > 0
    ensures m in s
    ensures forall j :: 0 <= j < |s| ==> s[j] <= m
  {
    s[ArgMax(s)]
  }

  // ---------------------------------------------------------------------------
  // Strings
  // ---------------------------------------------------------------------------

  /** The ASCII whitespace characters removed by `str.strip()`. */
  predicate IsSpace(c: char)
  {
    c == ' ' || c == '\t' || c == '\n' || c == '\r' || c == '\U{B}' || c == '\U{C}'
  }

  function TrimLeft(s: string): (r: string)
    ensures |r| <= |s| && r == s[|s| - |r|..]
    ensures forall i :: 0 <= i < |s| - |r| ==> IsSpace(s[i])
    ensures r == [] || !IsSpace(r[0])
  {
    if s != [] && IsSpace(s[0]) then TrimLeft(s[1..]) else s
  }

  function TrimRight(s: string): (r: string)
    ensures |r| <= |s| && r == s[..|r|]
    ensures forall i :: |r| <= i < |s| ==> IsSpace(s[i])
    ensures r == [] || !IsSpace(r[|r| - 1])
  {
    if s != [] && IsSpace(s[|s| - 1]) then TrimRight(s[..|s| - 1]) else s
  }

  /** `r` is a slice of `s` with only whitespace cut off on either side. */
  ghost predicate InnerSlice(r: string, s: string)
  {
    exists a, b :: 0 <= a <= b <= |s| && r == s[a..b] &&
      (forall i :: 0 <= i < a ==> IsSpace(s[i])) &&
      (forall i :: b <= i < |s| ==> IsSpace(s[i]))
  }

  /** `str.strip()`: drops leading and trailing whitespace and nothing else. */
  function Strip(s: string): (r: string)
    ensures |r| <= |s|
    ensures r == [] || (!IsSpace(r[0]) && !IsSpace(r[|r| - 1]))
    ensures (forall i :: 0 <= i < |s| ==> !IsSpace(s[i])) ==> r == s
    ensures InnerSlice(r, s)
  {
    StripSlice(s);
    TrimRight(TrimLeft(s))
  }

  lemma StripSlice(s: string)
    ensures InnerSlice(TrimRight(TrimLeft(s)), s)
  {
    var t := TrimLeft(s);
    var r := TrimRight(t);
    var a := |s| - |t|;
    var b := a + |r|;
    assert r == s[a..b] by {
      assert t == s[a..];
      assert r == t[..|r|];
    }
    assert forall i :: 0 <= i < a ==> IsSpace(s[i]);
    assert forall i :: b <= i < |s| ==> IsSpace(s[i]) by {
      forall i | b <= i < |s|
        ensures IsSpace(s[i])
      {
        assert s[i] == t[i - a] && |r| <= i - a < |t|;
      }
    }
  }

  /** `str.replace(c, '')`: every `c` removed, the other characters kept in
      order (see `RemoveCharConcat`). */
  function RemoveChar(s: string, c: char): (r: string)
    ensures c !in r
    ensures forall x :: x in r ==> x in s
    ensures c !in s ==> r == s
    ensures multiset(r) == multiset(s)[c := 0]
  {
    if s == [] then []
    else
      var r := (if s[0] == c then [] else [s[0]]) + RemoveChar(s[1..], c);
      assert s == [s[0]] + s[1..];
      r
  }

  /** Removal works piece by piece: it keeps the order of what remains. */
  lemma {:induction false} RemoveCharConcat(a: string, b: string, c: char)
    ensures RemoveChar(a + b, c) == RemoveChar(a, c) + RemoveChar(b, c)
  {
    if a == [] {
      assert a + b == b;
    } else {
      var x := if a[0] == c then [] else [a[0]];
      assert (a + b)[0] == a[0] && (a + b)[1..] == a[1..] + b;
      RemoveCharConcat(a[1..], b, c);
      calc {
        RemoveChar(a + b, c);
        x + RemoveChar(a[1..] + b, c);
        x + (RemoveChar(a[1..], c) + RemoveChar(b, c));
        (x + RemoveChar(a[1..], c)) + RemoveChar(b, c);
        RemoveChar(a, c) + RemoveChar(b, c);
      }
    }
  }

  /** The ISO cleaning applied before lookups:
      `.astype(str).str.strip().str.replace('"', '')`: the stripped text
      with its double quotes removed. */
  function CleanIso(s: string): (r: string)
    ensures '"' !in r
    ensures multiset(r) == multiset(Strip(s))['"' := 0]
  {
    RemoveChar(Strip(s), '"')
  }

  function LowerChar(c: char): char
  {
    if 'A' <= c <= 'Z' then (c as int + 32) as char else c
  }

  /** `str.lower()` on ASCII letters; other characters are kept as they are. */
  function Lower(s: string): (r: string)
    ensures |r| == |s|
    ensures forall i :: 0 <= i < |s| ==> r[i] == LowerChar(s[i])
    ensures forall i :: 0 <= i < |r| ==> !('A' <= r[i] <= 'Z')
  {
    if s == [] then [] else [LowerChar(s[0])] + Lower(s[1..])
  }

  predicate IsPrefix(p: string, s: string)
  {
    |p| <= |s| && s[..|p|] == p
  }

  /** Python's `p in s` on strings. */
  predicate IsInfix(p: string, s: string)
  {
    IsPrefix(p, s) || (s != [] && IsInfix(p, s[1..]))
  }

  predicate AllDigits(s: string)
  {
    forall i :: 0 <= i < |s| ==> '0' <= s[i] <= '9'
  }

  /** `str.isdigit()` on ASCII: non-empty and only digits. */
  predicate IsDigits(s: string)
  {
    |s| > 0 && AllDigits(s)
  }

  function DigitsValue(s: string): (n: nat)
    requires AllDigits(s)
  {
    if s == [] then 0 else 10 * DigitsValue(s[..|s| - 1]) + (s[|s| - 1] as int - '0' as int)
  }

  /** A string of `n` digits is worth less than 10^n. */
  lemma {:induction false} DigitsBound(s: string)
    requires AllDigits(s)
    ensures DigitsValue(s) < Pow10(|s|)
  {
    if s != [] {
      DigitsBound(s[..|s| - 1]);
    }
  }

  function Pow10(n: nat): (p: nat)
    ensures p > 0
  {
    if n == 0 then 1 else 10 * Pow10(n - 1)
  }

  /** Position of the first `c` in `s`, or `|s|`. */
  function IndexOf(s: string, c: char): (k: nat)
    ensures k <= |s|
    ensures c !in s[..k]
    ensures k < |s| ==> s[k] == c
  {
    if s == [] then 0 else if s[0] == c then 0 else 1 + IndexOf(s[1..], c)
  }

  /** An unsigned decimal: digits, optionally a point and more digits, with at
      least one digit in all. */
  function ParseUnsigned(s: string): (r: Option<real>)
    ensures IsDigits(s) ==> r == Some(DigitsValue(s) as real)
    ensures r.Some? ==> r.value >= 0.0
  {
    var k := IndexOf(s, '.');
    var whole := s[..k];
    var frac := if k < |s| then s[k + 1..] else "";
    if (whole == "" && frac == "") || !AllDigits(whole) || !AllDigits(frac) then None
    else
      DigitsHaveNoPoint(s);
      Some(Decimal(DigitsValue(whole), DigitsValue(frac), |frac|))
  }

  /** The value of `w.f` where `f` has `n` digits of value `f`. */
  function Decimal(w: nat, f: nat, n: nat): (v: real)
    ensures v >= w as real
    ensures n == 0 && f == 0 ==> v == w as real
  {
    w as real + (f as real) / (Pow10(n) as real)
  }

  lemma DigitsHaveNoPoint(s: string)
    ensures IsDigits(s) ==> IndexOf(s, '.') == |s| && s[..|s|] == s
  {
  }

  /** Numeric coercion of one cell (`pd.to_numeric(..., errors='coerce')`):
      `None` stands for the NaN that a later `dropna` removes. */
  function ParseDecimal(s: string): (r: Option<real>)
    ensures s == "" ==> r == None
    ensures IsDigits(s) ==> r == Some(DigitsValue(s) as real)
  {
    if s == "" then None
    else if s[0] == '-' then
      match ParseUnsigned(s[1..])
      case Some(v) => Some(-v)
      case None => None
    else if s[0] == '+' then ParseUnsigned(s[1..])
    else ParseUnsigned(s)
  }

  /** A column header read as a year: numeric and integral. */
  function YearOf(h: string): (y: Option<int>)
    ensures IsDigits(h) ==> y == Some(DigitsValue(h))
    ensures y.Some? ==> ParseDecimal(h) == Some(y.value as real)
  {
    match ParseDecimal(h)
    case Some(v) => if v.Floor as real == v then Some(v.Floor) else None
    case None => None
  }

  /** Total cell accessor: a missing cell reads as empty text (NaN). */
  function CellAt(row: seq<string>, j: nat): string
  {
    if j < |row| then row[j] else ""
  }
}
