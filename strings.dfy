/**
 * String operations the shopping-list code relies on, stated on `seq<char>`:
 * `String.prototype.includes`, the decimal rendering of a counter inside a
 * template string, `replace(/\D/g, "")` followed by `parseInt(…, 10)`,
 * `trim`, and `join("\n")` with its inverse, splitting at newlines.
 */
module Strings {
  import opened Wrappers

  /** `hay.includes(needle)`: needle occurs at some offset of hay (the empty string occurs everywhere). */
  predicate Contains(hay: string, needle: string)
  {
    exists i :: 0 <= i <= |hay| - |needle| && OccursAt(hay, needle, i)
  }

  predicate OccursAt(hay: string, needle: string, i: int)
  {
    0 <= i <= |hay| - |needle| && hay[i..i + |needle|] == needle
  }

  lemma ContainsSelf(s: string)
    ensures Contains(s, s)
  {
    assert OccursAt(s, s, 0);
  }

  lemma ContainsEmpty(s: string)
    ensures Contains(s, "")
  {
    assert OccursAt(s, "", 0);
  }

  // ---------------------------------------------------------------- digits

  predicate IsDigit(c: char)
  {
    '0' <= c <= '9'
  }

  predicate AllDigits(s: string)
  {
    forall i :: 0 <= i < |s| ==> IsDigit(s[i])
  }

  function DigitChar(d: nat): (c: char)
    requires d < 10
    ensures IsDigit(c)
  {
    ('0' as int + d) as char
  }

  function DigitValue(c: char): nat
    requires IsDigit(c)
  {
    c as int - '0' as int
  }

  /** The decimal rendering of a natural number, as a template string `${n}` produces it. */
  function Decimal(n: nat): (s: string)
    ensures |s| >= 1 && AllDigits(s)
  {
    if n < 10 then [DigitChar(n)] else Decimal(n / 10) + [DigitChar(n % 10)]
  }

  /** The value of a string of decimal digits, as `parseInt(ds, 10)` reads it. */
  function ParseDigits(ds: string): nat
    requires AllDigits(ds)
  {
    if ds == [] then 0 else 10 * ParseDigits(ds[..|ds| - 1]) + DigitValue(ds[|ds| - 1])
  }

  /** Parsing undoes rendering. */
  lemma {:induction false} ParseDecimal(n: nat)
    ensures ParseDigits(Decimal(n)) == n
  {
    var s := Decimal(n);
    if n >= 10 {
      assert s[..|s| - 1] == Decimal(n / 10);
      ParseDecimal(n / 10);
    }
  }

  /** Distinct numbers render to distinct strings. */
  lemma DecimalInjective(a: nat, b: nat)
    ensures Decimal(a) == Decimal(b) <==> a == b
  {
    if Decimal(a) == Decimal(b) {
      ParseDecimal(a);
      ParseDecimal(b);
    }
  }

  /** `s.replace(/\D/g, "")`: the digits of s, in order. */
  function DigitsOnly(s: string): (r: string)
    ensures AllDigits(r) && |r| <= |s|
  {
    if s == [] then ""
    else DigitsOnly(s[..|s| - 1]) + (if IsDigit(s[|s| - 1]) then [s[|s| - 1]] else "")
  }

  lemma {:induction false} DigitsOnlyAppend(a: string, b: string)
    ensures DigitsOnly(a + b) == DigitsOnly(a) + DigitsOnly(b)
  {
    if b != [] {
      assert (a + b)[..|a + b| - 1] == a + b[..|b| - 1];
      DigitsOnlyAppend(a, b[..|b| - 1]);
    } else {
      assert a + b == a;
    }
  }

  lemma {:induction false} DigitsOnlyOfDigits(s: string)
    requires AllDigits(s)
    ensures DigitsOnly(s) == s
  {
    if s != [] {
      DigitsOnlyOfDigits(s[..|s| - 1]);
      assert s[..|s| - 1] + [s[|s| - 1]] == s;
    }
  }

  lemma {:induction false} DigitsOnlyOfNonDigits(s: string)
    requires forall i :: 0 <= i < |s| ==> !IsDigit(s[i])
    ensures DigitsOnly(s) == ""
  {
    if s != [] {
      DigitsOnlyOfNonDigits(s[..|s| - 1]);
    }
  }

  /**
   * The number an id carries: `parseInt(id.replace(/\D/g, ""), 10)`, with
   * None for the NaN that an id without any digit yields.
   */
  function IdNumber(id: string): Option<nat>
  {
    var ds := DigitsOnly(id);
    if ds == "" then None else Some(ParseDigits(ds))
  }

  /** A prefix without digits followed by a rendered number carries exactly that number. */
  lemma IdNumberOfRendered(prefix: string, n: nat)
    requires forall i :: 0 <= i < |prefix| ==> !IsDigit(prefix[i])
    ensures IdNumber(prefix + Decimal(n)) == Some(n)
  {
    DigitsOnlyAppend(prefix, Decimal(n));
    DigitsOnlyOfNonDigits(prefix);
    DigitsOnlyOfDigits(Decimal(n));
    assert DigitsOnly(prefix + Decimal(n)) == Decimal(n);
    ParseDecimal(n);
  }

  // ---------------------------------------------------------------- trim

  /**
   * The whitespace `trim` removes. JavaScript's set also holds the Unicode
   * space separators and line terminators; this model keeps the ASCII ones.
   */
  predicate IsSpace(c: char)
  {
    c == ' ' || c == '\t' || c == '\n' || c == '\r' || c == '\U{B}' || c == '\U{C}'
  }

  function TrimStart(s: string): (r: string)
    ensures |r| <= |s| && r == s[|s| - |r|..]
    ensures r != "" ==> !IsSpace(r[0])
    ensures forall i :: 0 <= i < |s| - |r| ==> IsSpace(s[i])
  {
    if s != "" && IsSpace(s[0]) then TrimStart(s[1..]) else s
  }

  function TrimEnd(s: string): (r: string)
    ensures |r| <= |s| && r == s[..|r|]
    ensures r != "" ==> !IsSpace(r[|r| - 1])
    ensures forall i :: |r| <= i < |s| ==> IsSpace(s[i])
  {
    if s != "" && IsSpace(s[|s| - 1]) then TrimEnd(s[..|s| - 1]) else s
  }

  /** `s.trim()`. */
  function Trim(s: string): string
  {
    TrimEnd(TrimStart(s))
  }

  /**
   * What trim promises: the result is the slice s[lo..hi] of s, everything
   * cut off on either side is whitespace, and the result neither starts nor
   * ends with whitespace.
   */
  lemma TrimSpec(s: string, lo: nat, hi: nat)
    requires lo == |s| - |TrimStart(s)| && hi == lo + |Trim(s)|
    ensures hi <= |s| && Trim(s) == s[lo..hi]
    ensures forall i :: 0 <= i < lo ==> IsSpace(s[i])
    ensures forall i :: hi <= i < |s| ==> IsSpace(s[i])
    ensures Trim(s) != "" ==> !IsSpace(Trim(s)[0]) && !IsSpace(Trim(s)[|Trim(s)| - 1])
  {
    var t := TrimStart(s);
    var r := TrimEnd(t);
    assert Trim(s) == r;
    SliceOfSuffix(s, t, r, lo, hi);
    forall i | hi <= i < |s| ensures IsSpace(s[i]) {
      assert s[i] == t[i - lo];
    }
  }

  /** A prefix of a suffix is a slice, and the characters past it are the suffix's. */
  lemma SliceOfSuffix(s: string, t: string, r: string, lo: nat, hi: nat)
    requires lo <= |s| && t == s[lo..] && lo <= hi <= |s| && r == t[..hi - lo]
    ensures r == s[lo..hi]
    ensures forall i :: hi <= i < |s| ==> s[i] == t[i - lo]
  {
  }

  /** A trimmed string is blank exactly when every character of the input is whitespace. */
  lemma TrimBlank(s: string)
    ensures Trim(s) == "" <==> forall i :: 0 <= i < |s| ==> IsSpace(s[i])
  {
    var t := TrimStart(s);
    if t != "" {
      assert !IsSpace(s[|s| - |t|]);
      assert TrimEnd(t) != "";
    }
  }

  lemma TrimIdempotent(s: string)
    ensures Trim(Trim(s)) == Trim(s)
  {
    var t := Trim(s);
    if t != "" {
      TrimSpec(s, |s| - |TrimStart(s)|, |s| - |TrimStart(s)| + |t|);
      assert TrimStart(t) == t;
      assert TrimEnd(t) == t;
    }
  }

  // ---------------------------------------------------------------- join / split

  /** `lines.join("\n")`. */
  function JoinLines(lines: seq<string>): string
  {
    if lines == [] then ""
    else if |lines| == 1 then lines[0]
    else lines[0] + "\n" + JoinLines(lines[1..])
  }

  function FirstNewline(s: string): (i: nat)
    requires '\n' in s
    ensures i < |s| && s[i] == '\n' && '\n' !in s[..i]
  {
    if s[0] == '\n' then 0
    else
      var j := FirstNewline(s[1..]);
      assert s[..j + 1] == [s[0]] + s[1..][..j];
      j + 1
  }

  /** `s.split("\n")`: the pieces between newlines (one piece when there is none). */
  function SplitLines(s: string): (r: seq<string>)
    ensures |r| >= 1
    decreases |s|
  {
    if '\n' !in s then [s]
    else
      var i := FirstNewline(s);
      [s[..i]] + SplitLines(s[i + 1..])
  }

  /** Splitting a joined list of newline-free lines gives the lines back. */
  lemma {:induction false} SplitJoin(lines: seq<string>)
    requires |lines| >= 1
    requires forall k :: 0 <= k < |lines| ==> '\n' !in lines[k]
    ensures SplitLines(JoinLines(lines)) == lines
  {
    if |lines| > 1 {
      var head, rest := lines[0], JoinLines(lines[1..]);
      var s := head + "\n" + rest;
      assert s[|head|] == '\n';
      var i := FirstNewline(s);
      assert s[..i] == head;
      assert s[i + 1..] == rest;
      SplitJoin(lines[1..]);
    }
  }
}
