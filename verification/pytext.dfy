/** The few Python string built-ins the integration relies on, with the
    semantics CPython gives them for the arguments that occur here. A `None`
    result stands for the exception Python raises. */
module PyText {
  import opened Wrappers

  /** `s[i]` for a non-negative index: IndexError when `i` is past the end. */
  function CharAt(s: string, i: nat): (r: Option<char>)
    ensures r.Some? <==> i < |s|
    ensures r.Some? ==> r.value == s[i]
  {
    if i < |s| then Some(s[i]) else None
  }

  /** `s[i:j]` for non-negative bounds: the characters from index `i` up to
      `j` that exist. It never raises: bounds past the end are clamped to the
      length and a reversed range gives the empty string. */
  function Slice(s: string, i: nat, j: nat): (r: string)
    ensures |r| == if j <= i || |s| <= i then 0 else if j <= |s| then j - i else |s| - i
    ensures forall k :: 0 <= k < |r| ==> r[k] == s[i + k]
    decreases j - i
  {
    if i < j && i < |s| then [s[i]] + Slice(s, i + 1, j) else []
  }

  /** Within bounds, `s[i:j]` is the subsequence from `i` to `j`; from the
      end of the string on, it is empty. */
  lemma {:induction false} SliceWithin(s: string, i: nat, j: nat)
    ensures i <= j <= |s| ==> Slice(s, i, j) == s[i..j]
    ensures |s| <= i ==> Slice(s, i, j) == []
    decreases j - i
  {
    if i < j && i < |s| {
      SliceWithin(s, i + 1, j);
    }
  }

  /** `s.startswith(p)`. */
  predicate StartsWith(s: string, p: string) {
    |p| <= |s| && s[..|p|] == p
  }

  /** `sub` stands in `s` from index `i` on. */
  predicate OccursAt(s: string, sub: string, i: int) {
    0 <= i <= |s| - |sub| && s[i..i + |sub|] == sub
  }

  /** `sub in s`: some contiguous run of `s` equals `sub`. */
  function Contains(s: string, sub: string): (b: bool)
    ensures b <==> exists i :: OccursAt(s, sub, i)
    decreases |s|
  {
    if StartsWith(s, sub) then
      assert OccursAt(s, sub, 0);
      true
    else if |s| <= |sub| then
      false
    else
      var b := Contains(s[1..], sub);
      ShiftOccurrence(s, sub);
      b
  }

  /** Occurrences in `s[1..]` are those in `s` from index 1 on, shifted by one. */
  lemma ShiftOccurrence(s: string, sub: string)
    requires |s| > 0
    ensures forall i :: OccursAt(s, sub, i) && i > 0 ==> OccursAt(s[1..], sub, i - 1)
    ensures forall i :: OccursAt(s[1..], sub, i) ==> OccursAt(s, sub, i + 1)
  {
    forall i | 0 <= i <= |s| - 1 - |sub|
      ensures OccursAt(s[1..], sub, i) <==> OccursAt(s, sub, i + 1)
    {
      assert s[1..][i..i + |sub|] == s[i + 1..i + 1 + |sub|];
    }
  }

  /** `s.replace(c, '')`: every occurrence of `c` removed, the rest kept in order. */
  function Remove(s: string, c: char): (r: string)
    ensures c !in r
    ensures |r| <= |s|
    ensures forall x :: x in r ==> x in s
  {
    if s == [] then []
    else if s[0] == c then Remove(s[1..], c)
    else [s[0]] + Remove(s[1..], c)
  }

  /** Removing `c` distributes over concatenation. */
  lemma {:induction false} RemoveAppend(a: string, b: string, c: char)
    ensures Remove(a + b, c) == Remove(a, c) + Remove(b, c)
  {
    if a != [] {
      assert (a + b)[0] == a[0];
      assert (a + b)[1..] == a[1..] + b;
      RemoveAppend(a[1..], b, c);
    } else {
      assert a + b == b;
    }
  }

  /** A string that holds no `c` is left as it is. */
  lemma {:induction false} RemoveAbsent(s: string, c: char)
    requires c !in s
    ensures Remove(s, c) == s
  {
    if s != [] {
      RemoveAbsent(s[1..], c);
    }
  }

  /** Removing twice removes nothing more. */
  lemma RemoveIdempotent(s: string, c: char)
    ensures Remove(Remove(s, c), c) == Remove(s, c)
  {
    RemoveAbsent(Remove(s, c), c);
  }

  /** The decimal digit of `d`. */
  function DecimalDigit(d: nat): (c: char)
    requires d < 10
    ensures '0' <= c <= '9' && c as int - '0' as int == d
  {
    ('0' as int + d) as char
  }

  /** `str(n)` for a non-negative int: the shortest decimal numeral. */
  function IntToString(n: nat): (s: string)
    ensures |s| >= 1
    ensures |s| == 1 <==> n < 10
    ensures forall i :: 0 <= i < |s| ==> '0' <= s[i] <= '9'
  {
    if n < 10 then [DecimalDigit(n)] else IntToString(n / 10) + [DecimalDigit(n % 10)]
  }

  /** The value of a numeral of decimal digits, most significant first. */
  function DecimalValue(s: string): nat
  {
    if s == [] then 0
    else
      var d := s[|s| - 1] as int - '0' as int;
      DecimalValue(s[..|s| - 1]) * 10 + (if 0 <= d < 10 then d else 0)
  }

  /** `str` is undone by reading the numeral back, so distinct numbers print differently. */
  lemma {:induction false} IntToStringRoundTrip(n: nat)
    ensures DecimalValue(IntToString(n)) == n
  {
    var s := IntToString(n);
    if n < 10 {
      assert s[..0] == [];
    } else {
      IntToStringRoundTrip(n / 10);
      assert s[..|s| - 1] == IntToString(n / 10);
    }
  }

  lemma IntToStringInjective(a: nat, b: nat)
    requires IntToString(a) == IntToString(b)
    ensures a == b
  {
    IntToStringRoundTrip(a);
    IntToStringRoundTrip(b);
  }

  /** A one-character numeral names the number of that digit: `str(n) == "d"` exactly when `n == d`. */
  lemma SingleDigitString(n: nat, d: nat)
    requires d < 10
    ensures IntToString(n) == [DecimalDigit(d)] <==> n == d
  {
    if IntToString(n) == [DecimalDigit(d)] {
      IntToStringInjective(n, d);
    }
  }
}
