/** The string operations the service relies on, as Python defines them for
    ASCII text: `str.lower`, `str.strip`, `str.isalnum`, `str.endswith`,
    `str.split` on one separator and `re.split` on a character class,
    `str.join`, `int()` on a string, and literal substring search. */
module Strings {
  import opened Basics

  // ---------------------------------------------------------------- case

  predicate IsUpperChar(c: char) { 'A' <= c <= 'Z' }

  function LowerChar(c: char): char
  {
    if IsUpperChar(c) then (c as int + 32) as char else c
  }

  /** No ASCII upper-case letter occurs in `s`. */
  predicate IsLower(s: string)
  {
    forall i :: 0 <= i < |s| ==> !IsUpperChar(s[i])
  }

  /** `str.lower()` on ASCII: upper-case letters become lower-case, every
      other character is kept. */
  function Lower(s: string): (r: string)
    ensures |r| == |s| && IsLower(r)
    ensures forall i :: 0 <= i < |s| ==>
      if IsUpperChar(s[i]) then r[i] as int == s[i] as int + 32 else r[i] == s[i]
  {
    seq(|s|, i requires 0 <= i < |s| => LowerChar(s[i]))
  }

  /** Each string in the list, lower-cased (a `[x.lower() for x in xs]`). */
  function LowerAll(xs: seq<string>): (r: seq<string>)
    ensures |r| == |xs|
    ensures forall k :: 0 <= k < |xs| ==> r[k] == Lower(xs[k])
  {
    seq(|xs|, k requires 0 <= k < |xs| => Lower(xs[k]))
  }

  lemma {:induction false} LowerOfLower(s: string)
    requires IsLower(s)
    ensures Lower(s) == s
  {
  }

  /** A lower-case string in a list is also in the lower-cased list. */
  lemma {:induction false} LowerAllKeeps(s: string, xs: seq<string>)
    ensures IsLower(s) && s in xs ==> s in LowerAll(xs)
  {
    if IsLower(s) && s in xs {
      var k :| 0 <= k < |xs| && xs[k] == s;
      LowerOfLower(s);
      assert LowerAll(xs)[k] == s;
    }
  }

  // ---------------------------------------------------------- whitespace

  /** The characters below 128 that Python's `str.isspace` accepts:
      tab, line feed, vertical tab, form feed, carriage return, the four
      information separators and space. */
  predicate IsSpace(c: char)
  {
    9 <= c as int <= 13 || 28 <= c as int <= 32
  }

  predicate AllSpace(s: string)
  {
    forall i :: 0 <= i < |s| ==> IsSpace(s[i])
  }

  predicate NoSpace(s: string)
  {
    forall i :: 0 <= i < |s| ==> !IsSpace(s[i])
  }

  /** How many whitespace characters `s` starts with. */
  function LeadingSpaces(s: string): (n: nat)
    ensures n <= |s| && AllSpace(s[..n]) && (n == |s| || !IsSpace(s[n]))
    decreases |s|
  {
    if s != [] && IsSpace(s[0]) then
      var m := LeadingSpaces(s[1..]);
      assert s[..m + 1] == [s[0]] + s[1..][..m];
      m + 1
    else 0
  }

  /** How many whitespace characters `s` ends with. */
  function TrailingSpaces(s: string): (n: nat)
    ensures n <= |s| && AllSpace(s[|s| - n..]) && (n == |s| || !IsSpace(s[|s| - n - 1]))
    decreases |s|
  {
    if s != [] && IsSpace(s[|s| - 1]) then
      var m := TrailingSpaces(s[..|s| - 1]);
      assert s[|s| - (m + 1)..] == s[..|s| - 1][|s| - 1 - m..] + [s[|s| - 1]];
      m + 1
    else 0
  }

  /** `str.strip()`: `s` without its leading and trailing whitespace. */
  function Strip(s: string): (r: string)
    ensures |r| <= |s|
    ensures r == [] || (!IsSpace(r[0]) && !IsSpace(r[|r| - 1]))
  {
    var lead := LeadingSpaces(s);
    var t := s[lead..];
    t[..|t| - TrailingSpaces(t)]
  }

  /** What `strip` returns is the slice of `s` between whitespace that it
      cuts off at both ends. */
  lemma {:induction false} StripIsSlice(s: string)
    ensures var lead, r := LeadingSpaces(s), Strip(s);
      lead + |r| <= |s| && r == s[lead..lead + |r|] &&
      AllSpace(s[..lead]) && AllSpace(s[lead + |r|..])
  {
    var lead := LeadingSpaces(s);
    var t := s[lead..];
    var trail := TrailingSpaces(t);
    var r := Strip(s);
    assert r == t[..|t| - trail];
    assert |r| == |s| - lead - trail;
    assert r == s[lead..lead + |r|];
    assert s[lead + |r|..] == t[|t| - trail..];
  }

  /** A string with no whitespace at either end is left alone by `strip`. */
  lemma {:induction false} StripTrimmed(s: string)
    requires s == [] || (!IsSpace(s[0]) && !IsSpace(s[|s| - 1]))
    ensures Strip(s) == s
  {
    assert LeadingSpaces(s) == 0;
    assert s[0..] == s;
    assert TrailingSpaces(s) == 0;
  }

  lemma {:induction false} StripIdempotent(s: string)
    ensures Strip(Strip(s)) == Strip(s)
  {
    StripTrimmed(Strip(s));
  }

  /** Stripping cuts a slice, so a lower-case string stays lower-case. */
  lemma {:induction false} StripKeepsLower(s: string)
    requires IsLower(s)
    ensures IsLower(Strip(s))
  {
    var lead := LeadingSpaces(s);
    var r := Strip(s);
    StripIsSlice(s);
    forall i | 0 <= i < |r| ensures !IsUpperChar(r[i]) {
      assert r[i] == s[lead + i];
    }
  }

  // -------------------------------------------------------------- search

  /** `p` occurs in `s` as a contiguous substring (the empty string occurs
      everywhere). */
  predicate Contains(s: string, p: string)
    ensures Contains(s, p) ==> |p| <= |s|
    ensures p <= s ==> Contains(s, p)
    ensures EndsWith(s, p) ==> Contains(s, p)
  {
    assert s[0..] == s;
    assert EndsWith(s, p) ==> p <= s[|s| - |p|..];
    exists i :: 0 <= i <= |s| && p <= s[i..]
  }

  /** An occurrence survives lower-casing both strings. */
  lemma {:induction false} ContainsLower(s: string, p: string)
    requires Contains(s, p)
    ensures Contains(Lower(s), Lower(p))
  {
    var i :| 0 <= i <= |s| && p <= s[i..];
    forall k | 0 <= k < |p| ensures Lower(s)[i + k] == Lower(p)[k] {
      assert s[i..][k] == p[k];
    }
    assert Lower(p) <= Lower(s)[i..];
  }

  /** If some term occurs in `s`, some lower-cased term occurs in the
      lower-cased `s`; the empty term occurs in every string. */
  lemma {:induction false} SomeTermContainsLower(s: string, terms: seq<string>)
    ensures (exists k :: 0 <= k < |terms| && Contains(s, terms[k])) ==>
      exists k :: 0 <= k < |terms| && Contains(Lower(s), Lower(terms[k]))
    ensures "" in terms ==> exists k :: 0 <= k < |terms| && Contains(Lower(s), Lower(terms[k]))
  {
    if k :| 0 <= k < |terms| && Contains(s, terms[k]) {
      ContainsLower(s, terms[k]);
    }
    if "" in terms {
      var k :| 0 <= k < |terms| && terms[k] == "";
      assert Lower(s)[0..] == Lower(s);
      assert Contains(Lower(s), Lower(terms[k]));
    }
  }

  /** `s.endswith(suffix)`. */
  predicate EndsWith(s: string, suffix: string)
  {
    |suffix| <= |s| && s[|s| - |suffix|..] == suffix
  }

  // ------------------------------------------------------- split and join

  predicate SepFree(s: string, seps: set<char>)
  {
    forall i :: 0 <= i < |s| ==> s[i] !in seps
  }

  function Occurrences(s: string, seps: set<char>): nat
    decreases |s|
  {
    if s == [] then 0 else (if s[0] in seps then 1 else 0) + Occurrences(s[1..], seps)
  }

  /** Splitting at every character of `seps`, as `re.split('[..]', s)` and
      `s.split(c)` do: one more piece than there are separators, no piece
      holding a separator, empty pieces kept. */
  function Split(s: string, seps: set<char>): (r: seq<string>)
    ensures |r| == Occurrences(s, seps) + 1
    ensures forall k :: 0 <= k < |r| ==> SepFree(r[k], seps)
    decreases |s|
  {
    if s == [] then [""]
    else
      var rest := Split(s[1..], seps);
      if s[0] in seps then [""] + rest
      else [[s[0]] + rest[0]] + rest[1..]
  }

  /** `sep.join(pieces)`. */
  function Join(pieces: seq<string>, sep: char): (r: string)
    ensures pieces != [] ==> pieces[0] <= r
    ensures pieces != [] && (forall k :: 0 <= k < |pieces| ==> SepFree(pieces[k], {sep})) ==>
      Occurrences(r, {sep}) == |pieces| - 1
    decreases |pieces|
  {
    if |pieces| == 0 then ""
    else if |pieces| == 1 then
      OccurrencesSepFree(pieces[0], {sep});
      pieces[0]
    else
      var rest := Join(pieces[1..], sep);
      assert [sep][1..] == [];
      assert Occurrences([sep], {sep}) == 1;
      OccurrencesAppend(pieces[0] + [sep], rest, {sep});
      OccurrencesAppend(pieces[0], [sep], {sep});
      OccurrencesSepFree(pieces[0], {sep});
      pieces[0] + [sep] + rest
  }

  /** Separators of a concatenation are those of each part. */
  lemma {:induction false} OccurrencesAppend(a: string, b: string, seps: set<char>)
    ensures Occurrences(a + b, seps) == Occurrences(a, seps) + Occurrences(b, seps)
    decreases |a|
  {
    if a == [] {
      assert a + b == b;
    } else {
      assert (a + b)[1..] == a[1..] + b;
      OccurrencesAppend(a[1..], b, seps);
    }
  }

  /** A string free of separators has none. */
  lemma {:induction false} OccurrencesSepFree(s: string, seps: set<char>)
    ensures SepFree(s, seps) ==> Occurrences(s, seps) == 0
    decreases |s|
  {
    if s != [] {
      OccurrencesSepFree(s[1..], seps);
    }
  }

  /** Joining the pieces of a split with the separator gives back the string. */
  lemma {:induction false} JoinSplit(s: string, sep: char)
    ensures Join(Split(s, {sep}), sep) == s
    decreases |s|
  {
    if s != [] {
      var rest := Split(s[1..], {sep});
      JoinSplit(s[1..], sep);
      if s[0] == sep {
        assert Split(s, {sep}) == [""] + rest;
        assert s == [sep] + s[1..];
      } else {
        var r := Split(s, {sep});
        assert r == [[s[0]] + rest[0]] + rest[1..];
        if |rest| == 1 {
          assert Join(rest, sep) == rest[0];
        } else {
          assert Join(rest, sep) == rest[0] + [sep] + Join(rest[1..], sep);
          assert r[1..] == rest[1..];
        }
      }
    }
  }

  /** A prefix without separators extends the first piece of the split. */
  lemma {:induction false} SplitSepFreePrefix(x: string, z: string, seps: set<char>)
    requires SepFree(x, seps)
    ensures Split(x + z, seps) == [x + Split(z, seps)[0]] + Split(z, seps)[1..]
    decreases |x|
  {
    if x != [] {
      SplitSepFreePrefix(x[1..], z, seps);
      assert (x + z)[1..] == x[1..] + z;
      assert (x + z)[0] == x[0];
      assert [x[0]] + (x[1..] + Split(z, seps)[0]) == x + Split(z, seps)[0];
    } else {
      var t := Split(z, seps);
      assert x + z == z;
      assert x + t[0] == t[0];
      assert [t[0]] + t[1..] == t;
    }
  }

  /** Splitting a join of separator-free pieces gives back the pieces. */
  lemma {:induction false} SplitJoin(pieces: seq<string>, sep: char)
    requires |pieces| >= 1
    requires forall k :: 0 <= k < |pieces| ==> SepFree(pieces[k], {sep})
    ensures Split(Join(pieces, sep), {sep}) == pieces
    decreases |pieces|
  {
    if |pieces| == 1 {
      SplitSepFreePrefix(pieces[0], "", {sep});
      assert pieces[0] + "" == pieces[0];
    } else {
      var tail := Join(pieces[1..], sep);
      SplitJoin(pieces[1..], sep);
      var z := [sep] + tail;
      assert Split(z, {sep}) == [""] + pieces[1..] by {
        assert z[1..] == tail;
      }
      SplitSepFreePrefix(pieces[0], z, {sep});
      assert pieces[0] + [sep] + tail == pieces[0] + z;
      assert pieces[0] + "" == pieces[0];
    }
  }

  // ------------------------------------------------------------- numbers

  predicate IsDigit(c: char) { '0' <= c <= '9' }

  predicate AllDigits(s: string)
  {
    forall i :: 0 <= i < |s| ==> IsDigit(s[i])
  }

  /** The value of a string of decimal digits (leading zeros allowed). */
  function DigitsValue(s: string): nat
    requires AllDigits(s)
    decreases |s|
  {
    if s == [] then 0 else 10 * DigitsValue(s[..|s| - 1]) + (s[|s| - 1] as int - '0' as int)
  }

  function DigitChar(d: nat): (c: char)
    requires d < 10
    ensures IsDigit(c) && c as int - '0' as int == d
  {
    ('0' as int + d) as char
  }

  /** The decimal spelling of `n`, without leading zeros. */
  function ShowNat(n: nat): (r: string)
    ensures |r| >= 1 && AllDigits(r)
    decreases n
  {
    if n < 10 then [DigitChar(n)] else ShowNat(n / 10) + [DigitChar(n % 10)]
  }

  /** `int()` applied to a string without surrounding whitespace: one
      optional sign, then at least one decimal digit. */
  function ParseSigned(t: string): Option<int>
  {
    if t != [] && (t[0] == '+' || t[0] == '-') then
      if |t| > 1 && AllDigits(t[1..]) then
        var v: int := DigitsValue(t[1..]);
        Some(if t[0] == '-' then -v else v)
      else None
    else if t != [] && AllDigits(t) then Some(DigitsValue(t))
    else None
  }

  /** Python's `int(s)` on a string: surrounding whitespace is ignored, one
      optional sign, then at least one decimal digit; anything else is a
      `ValueError`, here `None`. */
  function ParseInt(s: string): (r: Option<int>)
    ensures r.Some? ==> forall i :: 0 <= i < |s| ==> IsDigit(s[i]) || IsSpace(s[i]) || s[i] == '+' || s[i] == '-'
  {
    StrippedSignedCharacters(s);
    ParseSigned(Strip(s))
  }

  lemma {:induction false} ShowNatValue(n: nat)
    ensures DigitsValue(ShowNat(n)) == n
    decreases n
  {
    if n >= 10 {
      ShowNatValue(n / 10);
      var s := ShowNat(n);
      assert s[..|s| - 1] == ShowNat(n / 10);
    }
  }

  /** A plain string of digits is read as its decimal value. */
  lemma {:induction false} ParseDigits(s: string)
    requires s != [] && AllDigits(s)
    ensures ParseInt(s) == Some(DigitsValue(s))
  {
    StripTrimmed(s);
  }

  /** A sign followed by digits is read as the signed value of the digits. */
  lemma {:induction false} ParseSignedDigits(sign: char, d: string)
    requires sign == '+' || sign == '-'
    requires d != [] && AllDigits(d)
    ensures ParseInt([sign] + d) == Some(if sign == '-' then -(DigitsValue(d) as int) else DigitsValue(d))
  {
    var t := [sign] + d;
    assert t[0] == sign && t[1..] == d && t[|t| - 1] == d[|d| - 1];
    StripTrimmed(t);
  }

  /** `int()` reads back what `ShowNat` writes, with or without a sign. */
  lemma {:induction false} ParseShowNat(n: nat)
    ensures ParseInt(ShowNat(n)) == Some(n)
  {
    ShowNatValue(n);
    ParseDigits(ShowNat(n));
  }

  lemma {:induction false} ParseShowNatPlus(n: nat)
    ensures ParseInt("+" + ShowNat(n)) == Some(n)
  {
    var d := ShowNat(n);
    ShowNatValue(n);
    ParseSignedDigits('+', d);
  }

  /** A string whose stripped form is a signed numeral holds only digits,
      whitespace and signs. */
  lemma {:induction false} StrippedSignedCharacters(s: string)
    ensures ParseSigned(Strip(s)).Some? ==>
      forall i :: 0 <= i < |s| ==> IsDigit(s[i]) || IsSpace(s[i]) || s[i] == '+' || s[i] == '-'
  {
    if ParseSigned(Strip(s)).None? {
      return;
    }
    StripIsSlice(s);
    var lead, t := LeadingSpaces(s), Strip(s);
    forall i | 0 <= i < |s|
      ensures IsDigit(s[i]) || IsSpace(s[i]) || s[i] == '+' || s[i] == '-'
    {
      if i < lead {
        assert s[..lead][i] == s[i];
      } else if i >= lead + |t| {
        assert s[lead + |t|..][i - lead - |t|] == s[i];
      } else {
        assert t[i - lead] == s[i];
        if i > lead && (t[0] == '+' || t[0] == '-') {
          assert t[1..][i - lead - 1] == s[i];
        }
      }
    }
  }

  // -------------------------------------------------------- alphanumeric

  predicate IsAlnumChar(c: char)
  {
    IsDigit(c) || 'a' <= c <= 'z' || 'A' <= c <= 'Z'
  }

  /** `str.isalnum()`: non-empty and made of letters and digits only. */
  predicate IsAlnum(s: string)
    ensures IsAlnum(s) ==> s != [] && forall i :: 0 <= i < |s| ==> !IsSpace(s[i]) && s[i] != ','
  {
    |s| > 0 && forall i :: 0 <= i < |s| ==> IsAlnumChar(s[i])
  }

  lemma {:induction false} AlnumHasNoSpace(s: string)
    requires IsAlnum(s)
    ensures SepFree(s, {' '})
  {
  }
}
