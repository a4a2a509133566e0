/**
 * The pieces of Python's `str` that the pipeline relies on, stated over `seq<char>`:
 * `isspace`, `strip`/`lstrip`/`rstrip`, `sep.join`, `split` on one character,
 * `find`/`rfind`, `startswith`, the negative slice `s[-k:]` and `str(int)`.
 */
module PyStr {

  /** The characters for which `c.isspace()` holds: those `str.strip()` removes when called without arguments. */
  const SPACES: set<char> := {
    '\t', '\n', '\U{0B}', '\U{0C}', '\r', '\U{1C}', '\U{1D}', '\U{1E}', '\U{1F}', ' ', '\U{85}', '\U{A0}',
    '\U{1680}', '\U{2000}', '\U{2001}', '\U{2002}', '\U{2003}', '\U{2004}', '\U{2005}', '\U{2006}',
    '\U{2007}', '\U{2008}', '\U{2009}', '\U{200A}', '\U{2028}', '\U{2029}', '\U{202F}', '\U{205F}', '\U{3000}'}

  /** `c.isspace()`. */
  predicate IsSpace(c: char) {
    c in SPACES
  }

  /** True when `s.strip()` is empty, i.e. `s` holds no visible character. */
  predicate IsBlank(s: string) {
    forall i :: 0 <= i < |s| ==> IsSpace(s[i])
  }

  /** `s` neither starts nor ends with whitespace. */
  predicate IsStripped(s: string) {
    s == "" || (!IsSpace(s[0]) && !IsSpace(s[|s| - 1]))
  }

  lemma BlankConcat(a: string, b: string)
    ensures IsBlank(a + b) <==> IsBlank(a) && IsBlank(b)
  {
    if IsBlank(a) && IsBlank(b) {
      forall i | 0 <= i < |a + b| ensures IsSpace((a + b)[i]) {
        if i >= |a| { assert (a + b)[i] == b[i - |a|]; }
      }
    }
    if IsBlank(a + b) {
      forall i | 0 <= i < |a| ensures IsSpace(a[i]) { assert a[i] == (a + b)[i]; }
      forall i | 0 <= i < |b| ensures IsSpace(b[i]) { assert b[i] == (a + b)[|a| + i]; }
    }
  }

  /** `s.lstrip()`: drops the leading whitespace. */
  function LStrip(s: string): string {
    if s != "" && IsSpace(s[0]) then LStrip(s[1..]) else s
  }

  /** `s.rstrip()`: drops the trailing whitespace. */
  function RStrip(s: string): string {
    if s != "" && IsSpace(s[|s| - 1]) then RStrip(s[..|s| - 1]) else s
  }

  /** `s.strip()`. */
  function Strip(s: string): string {
    RStrip(LStrip(s))
  }

  /** `lstrip` removes exactly a blank prefix: what it drops is blank and what it keeps does not start with whitespace. */
  lemma {:induction false} LStripRemovesBlankPrefix(s: string)
    ensures |LStrip(s)| <= |s| && LStrip(s) == s[|s| - |LStrip(s)|..]
    ensures IsBlank(s[..|s| - |LStrip(s)|])
    ensures LStrip(s) == "" || !IsSpace(LStrip(s)[0])
  {
    if s != "" && IsSpace(s[0]) {
      var r := LStrip(s[1..]);
      LStripRemovesBlankPrefix(s[1..]);
      assert s[..|s| - |r|] == [s[0]] + s[1..][..|s| - 1 - |r|];
      BlankConcat([s[0]], s[1..][..|s| - 1 - |r|]);
    } else {
      assert s[..0] == [];
    }
  }

  /** `rstrip` removes exactly a blank suffix: what it drops is blank and what it keeps does not end with whitespace. */
  lemma {:induction false} RStripRemovesBlankSuffix(s: string)
    ensures |RStrip(s)| <= |s| && RStrip(s) == s[..|RStrip(s)|]
    ensures IsBlank(s[|RStrip(s)|..])
    ensures RStrip(s) == "" || !IsSpace(RStrip(s)[|RStrip(s)| - 1])
  {
    if s != "" && IsSpace(s[|s| - 1]) {
      var r := RStrip(s[..|s| - 1]);
      RStripRemovesBlankSuffix(s[..|s| - 1]);
      assert s[|r|..] == s[..|s| - 1][|r|..] + [s[|s| - 1]];
      BlankConcat(s[..|s| - 1][|r|..], [s[|s| - 1]]);
    } else {
      assert s[|s|..] == [];
    }
  }

  /**
   * `strip` leaves text that neither starts nor ends with whitespace, empty exactly
   * when the input is blank, and leaves already stripped text unchanged.
   */
  lemma StripFacts(s: string)
    ensures IsStripped(Strip(s))
    ensures Strip(s) == "" <==> IsBlank(s)
    ensures IsStripped(s) ==> Strip(s) == s
  {
    var l := LStrip(s);
    var r := RStrip(l);
    LStripRemovesBlankPrefix(s);
    RStripRemovesBlankSuffix(l);
    if r == "" {
      assert l[|r|..] == l;
      assert s[..|s|] == s;
      BlankConcat(s[..|s| - |l|], l);
      assert s == s[..|s| - |l|] + l;
    } else {
      assert r[0] == l[0];
    }
    if s != "" && !IsSpace(s[0]) && !IsSpace(s[|s| - 1]) {
      assert l == s;
      assert r == s;
    }
  }

  /** `sep.join(xs)`. */
  function Join(xs: seq<string>, sep: string): string {
    if |xs| == 0 then ""
    else if |xs| == 1 then xs[0]
    else Join(xs[..|xs| - 1], sep) + sep + xs[|xs| - 1]
  }

  /** Joining peels off the first element as well as the last one. */
  lemma {:induction false} JoinCons(x: string, xs: seq<string>, sep: string)
    requires xs != []
    ensures Join([x] + xs, sep) == x + sep + Join(xs, sep)
  {
    if |xs| == 1 {
      assert [x] + xs == [x, xs[0]];
      assert ([x] + xs)[..1] == [x];
    } else {
      var init := xs[..|xs| - 1];
      assert ([x] + xs)[..|xs|] == [x] + init;
      JoinCons(x, init, sep);
    }
  }

  /** `t` occurs as a contiguous piece of `s`. */
  ghost predicate IsSubstring(t: string, s: string) {
    exists i :: OccursAt(t, s, i)
  }

  /** `t` occurs in `s` starting at index `i`. */
  ghost predicate OccursAt(t: string, s: string, i: int) {
    0 <= i <= |s| - |t| && s[i..i + |t|] == t
  }

  /** Every element of a join appears intact in the joined text. */
  lemma {:induction false} JoinContains(xs: seq<string>, sep: string, j: nat)
    requires j < |xs|
    ensures IsSubstring(xs[j], Join(xs, sep))
  {
    var s := Join(xs, sep);
    if |xs| == 1 {
      assert OccursAt(xs[j], s, 0);
    } else if j == |xs| - 1 {
      var k := |Join(xs[..|xs| - 1], sep) + sep|;
      assert OccursAt(xs[j], s, k);
    } else {
      var init := xs[..|xs| - 1];
      JoinContains(init, sep, j);
      var i :| OccursAt(init[j], Join(init, sep), i);
      assert OccursAt(xs[j], s, i);
    }
  }

  /** A join with an empty separator (`"".join(xs)`) is blank exactly when every element is. */
  lemma {:induction false} ConcatBlank(xs: seq<string>)
    ensures IsBlank(Join(xs, "")) <==> forall i :: 0 <= i < |xs| ==> IsBlank(xs[i])
  {
    if |xs| > 1 {
      var init := xs[..|xs| - 1];
      ConcatBlank(init);
      assert Join(xs, "") == Join(init, "") + xs[|xs| - 1];
      BlankConcat(Join(init, ""), xs[|xs| - 1]);
      assert forall i :: 0 <= i < |init| ==> init[i] == xs[i];
    }
  }

  /** `s.startswith(prefix)`. */
  predicate StartsWith(s: string, prefix: string) {
    |prefix| <= |s| && s[..|prefix|] == prefix
  }

  /** `c not in s`. */
  predicate Free(s: string, c: char) {
    forall j :: 0 <= j < |s| ==> s[j] != c
  }

  /** `c not in s` for a non-empty `s`, read at its first character. */
  lemma FreeFirst(s: string, c: char)
    requires s != []
    ensures Free(s, c) <==> s[0] != c && Free(s[1..], c)
  {
    if s[0] != c && Free(s[1..], c) {
      forall j | 0 <= j < |s| ensures s[j] != c {
        if j > 0 {
          assert s[j] == s[1..][j - 1];
        }
      }
    }
  }

  /** `c not in s` for a non-empty `s`, read at its last character. */
  lemma FreeLast(s: string, c: char)
    requires s != []
    ensures Free(s, c) <==> s[|s| - 1] != c && Free(s[..|s| - 1], c)
  {
    if s[|s| - 1] != c && Free(s[..|s| - 1], c) {
      forall j | 0 <= j < |s| ensures s[j] != c {
        if j < |s| - 1 {
          assert s[j] == s[..|s| - 1][j];
        }
      }
    }
  }

  /** `s.find(c)`: the first index of `c`, or -1. */
  function FindFirst(s: string, c: char): (r: int)
    ensures -1 <= r < |s|
    ensures r == -1 <==> Free(s, c)
    ensures r >= 0 ==> s[r] == c && Free(s[..r], c)
  {
    if s == [] then -1
    else if s[0] == c then 0
    else
      var k := FindFirst(s[1..], c);
      FreeFirst(s, c);
      if k < 0 then -1
      else
        FreeFirst(s[..k + 1], c);
        assert s[..k + 1][1..] == s[1..][..k];
        k + 1
  }

  /** `s.rfind(c)`: the last index of `c`, or -1. */
  function FindLast(s: string, c: char): (r: int)
    ensures -1 <= r < |s|
    ensures r == -1 <==> Free(s, c)
    ensures r >= 0 ==> s[r] == c && Free(s[r + 1..], c)
  {
    if s == [] then -1
    else if s[|s| - 1] == c then |s| - 1
    else
      var k := FindLast(s[..|s| - 1], c);
      FreeLast(s, c);
      if k < 0 then -1
      else
        FreeLast(s[k + 1..], c);
        assert s[k + 1..][..|s| - k - 2] == s[..|s| - 1][k + 1..];
        k
  }

  /** `s.split(c)` for a one-character separator: the pieces between the occurrences of `c`. */
  function Split(s: string, c: char): (r: seq<string>)
    ensures |r| >= 1
    decreases |s|
  {
    var i := FindFirst(s, c);
    if i < 0 then [s] else [s[..i]] + Split(s[i + 1..], c)
  }

  /** No piece of `s.split(c)` contains `c`. */
  lemma {:induction false} SplitPieceFree(s: string, c: char, k: nat)
    requires k < |Split(s, c)|
    ensures Free(Split(s, c)[k], c)
    decreases |s|
  {
    var i := FindFirst(s, c);
    if i >= 0 {
      var tail := Split(s[i + 1..], c);
      assert Split(s, c) == [s[..i]] + tail;
      if k > 0 {
        SplitPieceFree(s[i + 1..], c, k - 1);
      }
    }
  }

  /** A text is the part before an occurrence of `c`, that `c`, and the part after it. */
  lemma AroundSeparator(s: string, c: char, i: nat)
    requires i < |s| && s[i] == c
    ensures s == s[..i] + [c] + s[i + 1..]
  {
    forall j | 0 <= j < |s| ensures s[j] == (s[..i] + [c] + s[i + 1..])[j] {
      if j > i {
        assert s[i + 1..][j - i - 1] == s[j];
      }
    }
  }

  /** `c.join(s.split(c)) == s`: splitting loses nothing. */
  lemma {:induction false} SplitJoin(s: string, c: char)
    ensures Join(Split(s, c), [c]) == s
    decreases |s|
  {
    var i := FindFirst(s, c);
    if i >= 0 {
      var head, rest := s[..i], s[i + 1..];
      var tail := Split(rest, c);
      assert Split(s, c) == [head] + tail;
      SplitJoin(rest, c);
      JoinCons(head, tail, [c]);
      AroundSeparator(s, c, i);
    } else {
      assert Split(s, c) == [s];
    }
  }

  /** Splitting a text made of comma-free parts around one separator gives those parts back. */
  lemma SplitTwo(a: string, b: string, c: char)
    requires Free(a, c) && Free(b, c)
    ensures Split(a + [c] + b, c) == [a, b]
  {
    var s := a + [c] + b;
    var i := FindFirst(s, c);
    assert s[|a|] == c;
    assert s[..|a|] == a;
    assert i == |a|;
    assert s[..i] == a;
    assert s[i + 1..] == b;
  }

  /** Python's `s[-k:]` for `k > 0`: the last `k` characters, or all of `s` when it is shorter. */
  function LastChars(s: string, k: int): string
    requires k > 0
  {
    if k >= |s| then s else s[|s| - k..]
  }

  /** `s[-k:]` is the suffix of `s` of length `min(k, len(s))`. */
  lemma LastCharsSuffix(s: string, k: int)
    requires k > 0
    ensures |LastChars(s, k)| == if k < |s| then k else |s|
    ensures LastChars(s, k) == s[|s| - |LastChars(s, k)|..]
  {
  }

  /** The decimal digit for `d < 10`. */
  function Digit(d: nat): char
    requires d < 10
  {
    ('0' as int + d) as char
  }

  /** `str(n)` for a natural number: decimal digits, most significant first. */
  function NatToString(n: nat): (r: string)
    ensures |r| >= 1
    ensures forall i :: 0 <= i < |r| ==> '0' <= r[i] <= '9'
  {
    if n < 10 then [Digit(n)] else NatToString(n / 10) + [Digit(n % 10)]
  }

  /** `str(i)` for any integer: a minus sign before the digits of a negative number. */
  function IntToString(i: int): string {
    if i < 0 then "-" + NatToString(-i) else NatToString(i)
  }

  /** `int(s)` for a string of decimal digits. */
  function ParseNat(s: string): nat
    requires forall i :: 0 <= i < |s| ==> '0' <= s[i] <= '9'
  {
    if s == [] then 0 else ParseNat(s[..|s| - 1]) * 10 + (s[|s| - 1] as int - '0' as int)
  }

  /** `int(str(n)) == n`. */
  lemma {:induction false} ParseNatToString(n: nat)
    ensures ParseNat(NatToString(n)) == n
  {
    var s := NatToString(n);
    if n >= 10 {
      ParseNatToString(n / 10);
      assert s[..|s| - 1] == NatToString(n / 10);
    } else {
      assert s[..|s| - 1] == [];
    }
  }

  /** Distinct numbers print differently. */
  lemma NatToStringInjective(m: nat, n: nat)
    requires NatToString(m) == NatToString(n)
    ensures m == n
  {
    ParseNatToString(m);
    ParseNatToString(n);
  }
}
