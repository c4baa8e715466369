/**
 The string helpers the relay relies on from Go's standard library: whitespace
 trimming (`strings.TrimSpace`), decimal formatting of an `int` (the `%d` verb),
 and an inverse decimal parser and a split at the last colon, used to state
 round-trips.
 */
module Text {
  import opened Wrappers

  /** The characters Go's `unicode.IsSpace` reports as white space. */
  predicate IsSpace(c: char) {
    || c == '\t' || c == '\n' || c == '\U{0B}' || c == '\U{0C}' || c == '\r' || c == ' '
    || c == '\U{85}' || c == '\U{A0}' || c == '\U{1680}'
    || ('\U{2000}' <= c <= '\U{200A}')
    || c == '\U{2028}' || c == '\U{2029}' || c == '\U{202F}' || c == '\U{205F}' || c == '\U{3000}'
  }

  predicate AllSpace(s: string) {
    forall i :: 0 <= i < |s| ==> IsSpace(s[i])
  }

  /** True when `s` neither starts nor ends with white space. */
  predicate Trimmed(s: string) {
    s == [] || (!IsSpace(s[0]) && !IsSpace(s[|s| - 1]))
  }

  /** Drops leading white space: the result is the longest suffix of `s` not starting with white space. */
  function TrimLeft(s: string): (r: string)
    ensures |r| <= |s| && r == s[|s| - |r|..]
    ensures AllSpace(s[..|s| - |r|])
    ensures r == [] || !IsSpace(r[0])
  {
    if |s| > 0 && IsSpace(s[0]) then
      var r := TrimLeft(s[1..]);
      assert s[..|s| - |r|] == [s[0]] + s[1..][..|s| - 1 - |r|];
      r
    else s
  }

  /** Drops trailing white space: the result is the longest prefix of `s` not ending with white space. */
  function TrimRight(s: string): (r: string)
    ensures |r| <= |s| && r == s[..|r|]
    ensures AllSpace(s[|r|..])
    ensures r == [] || !IsSpace(r[|r| - 1])
  {
    if |s| > 0 && IsSpace(s[|s| - 1]) then
      var r := TrimRight(s[..|s| - 1]);
      assert s[|r|..] == s[..|s| - 1][|r|..] + [s[|s| - 1]];
      r
    else s
  }

  /** `strings.TrimSpace`: removes leading and trailing white space. */
  function TrimSpace(s: string): (r: string)
    ensures |r| <= |s|
    ensures Trimmed(r)
  {
    TrimRight(TrimLeft(s))
  }

  lemma {:induction false} TrimLeftOf(a: string, t: string)
    requires AllSpace(a)
    requires t == [] || !IsSpace(t[0])
    ensures TrimLeft(a + t) == t
    decreases |a|
  {
    if a == [] {
      assert a + t == t;
    } else {
      assert (a + t)[1..] == a[1..] + t;
      TrimLeftOf(a[1..], t);
    }
  }

  lemma {:induction false} TrimRightOf(t: string, b: string)
    requires AllSpace(b)
    requires t == [] || !IsSpace(t[|t| - 1])
    ensures TrimRight(t + b) == t
    decreases |b|
  {
    if b == [] {
      assert t + b == t;
    } else {
      var b' := b[..|b| - 1];
      assert (t + b)[..|t + b| - 1] == t + b';
      TrimRightOf(t, b');
    }
  }

  /**
   The trimmed core is unique: whatever white space surrounds a string that
   neither starts nor ends with white space, trimming gives that string back.
   */
  lemma TrimSpaceOf(a: string, m: string, b: string)
    requires AllSpace(a) && AllSpace(b) && Trimmed(m)
    ensures TrimSpace(a + m + b) == m
  {
    if m == [] {
      assert a + m + b == a + b + m;
      TrimLeftOf(a + b, m);
    } else {
      assert a + m + b == a + (m + b);
      TrimLeftOf(a, m + b);
      TrimRightOf(m, b);
    }
  }

  /** Trimming leaves nothing exactly when the input is all white space. */
  lemma TrimSpaceEmptyIff(s: string)
    ensures TrimSpace(s) == [] <==> AllSpace(s)
  {
    if AllSpace(s) {
      assert s == s + [] + [];
      TrimSpaceOf(s, [], []);
    } else {
      var l := TrimLeft(s);
      assert s[..|s|] == s;
      assert l != [];
      assert l[0..] == l;
    }
  }

  /** `strings.TrimSpace` is idempotent. */
  lemma TrimSpaceIdempotent(s: string)
    ensures TrimSpace(TrimSpace(s)) == TrimSpace(s)
  {
    var m := TrimSpace(s);
    assert m == [] + m + [];
    TrimSpaceOf([], m, []);
  }

  predicate IsDigit(c: char) {
    '0' <= c <= '9'
  }

  predicate AllDigits(s: string) {
    forall i :: 0 <= i < |s| ==> IsDigit(s[i])
  }

  function DigitChar(d: nat): (c: char)
    requires d < 10
  {
    ('0' as int + d) as char
  }

  function DigitValue(c: char): nat
    requires IsDigit(c)
  {
    c as int - '0' as int
  }

  /** The shortest decimal numeral of `n`, without leading zeros. */
  function FormatNat(n: nat): (r: string)
    ensures |r| > 0 && AllDigits(r)
    ensures r[0] == '0' ==> n == 0 && r == "0"
    decreases n
  {
    if n < 10 then [DigitChar(n)] else FormatNat(n / 10) + [DigitChar(n % 10)]
  }

  /** A numeral as `%d` spells it: "0", or digits with no leading zero, optionally after a minus sign. */
  predicate Canonical(s: string) {
    || s == "0"
    || (|s| > 0 && '1' <= s[0] <= '9' && AllDigits(s))
    || (|s| > 1 && s[0] == '-' && '1' <= s[1] <= '9' && AllDigits(s[1..]))
  }

  /**
   Go's `%d` rendering of an integer: a minus sign for negative values, then
   the digits. It loses nothing, since the numeral reads back as the same
   integer, and it never holds a colon.
   */
  function FormatInt(n: int): (r: string)
    ensures Canonical(r)
    ensures ParseInt(r) == Some(n)
    ensures ':' !in r
  {
    if n < 0 then
      var digits := FormatNat(-n);
      ParseFormatNat(-n);
      assert ("-" + digits)[1..] == digits;
      "-" + digits
    else
      ParseFormatNat(n);
      FormatNat(n)
  }

  /** The value of a non-empty digit string, most significant digit first. */
  function ParseNat(s: string): nat
    requires AllDigits(s)
    decreases |s|
  {
    if s == [] then 0 else ParseNat(s[..|s| - 1]) * 10 + DigitValue(s[|s| - 1])
  }

  /** Reads back an optionally signed decimal numeral; `None` for anything else. */
  function ParseInt(s: string): Option<int>
  {
    if |s| > 1 && s[0] == '-' && AllDigits(s[1..]) then Some(0 - ParseNat(s[1..]))
    else if |s| > 0 && AllDigits(s) then Some(ParseNat(s))
    else None
  }

  lemma {:induction false} ParseFormatNat(n: nat)
    ensures ParseNat(FormatNat(n)) == n
    decreases n
  {
    var s := FormatNat(n);
    if n >= 10 {
      assert s[..|s| - 1] == FormatNat(n / 10);
      ParseFormatNat(n / 10);
    }
  }

  /** The position of the last occurrence of `c` in `s`. */
  function LastIndex(s: string, c: char): (r: Option<nat>)
    ensures r.Some? ==> r.value < |s| && s[r.value] == c && c !in s[r.value + 1..]
    ensures r.None? ==> c !in s
    decreases |s|
  {
    if s == [] then None
    else if s[|s| - 1] == c then Some(|s| - 1)
    else
      var r := LastIndex(s[..|s| - 1], c);
      assert r.Some? ==> s[r.value + 1..] == s[..|s| - 1][r.value + 1..] + [s[|s| - 1]];
      assert r.None? ==> s == s[..|s| - 1] + [s[|s| - 1]];
      r
  }

  /** Splits an address at its last colon into the part before and the part after. */
  function SplitAtLastColon(a: string): Option<(string, string)>
  {
    match LastIndex(a, ':')
    case None => None
    case Some(i) => Some((a[..i], a[i + 1..]))
  }

  /** Joining with a colon and splitting at the last colon are inverse when the tail holds no colon. */
  lemma SplitJoin(h: string, t: string)
    requires ':' !in t
    ensures SplitAtLastColon(h + ":" + t) == Some((h, t))
  {
    var a := h + ":" + t;
    assert a[|h|] == ':';
    var i := LastIndex(a, ':');
    assert i.Some?;
    assert forall k :: i.value < k < |a| ==> a[k] != ':' by {
      forall k | i.value < k < |a|
        ensures a[k] != ':'
      {
        assert a[i.value + 1..][k - i.value - 1] == a[k];
      }
    }
    assert forall k :: |h| < k < |a| ==> a[k] != ':' by {
      forall k | |h| < k < |a|
        ensures a[k] != ':'
      {
        assert a[k] == t[k - |h| - 1];
      }
    }
    assert a[..|h|] == h;
    assert a[|h| + 1..] == t;
  }
}
