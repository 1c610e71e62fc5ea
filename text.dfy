/**
 * The string operations the configuration code relies on: `str.split(sep)`,
 * `str.strip()` and `int()` on decimal digit strings.
 */
module Text {

  import opened Wrappers

  /** The index of the first `c` in `s`, or `|s|` when there is none. */
  function FirstIndex(s: string, c: char): (i: nat)
    ensures i <= |s|
    ensures i < |s| ==> s[i] == c
    ensures forall j :: 0 <= j < i ==> s[j] != c
  {
    if |s| == 0 then 0
    else if s[0] == c then 0
    else 1 + FirstIndex(s[1..], c)
  }

  /** Python's `s.split(c)` for a one-character separator. */
  function Split(s: string, c: char): (parts: seq<string>)
    ensures |parts| >= 1
    ensures forall k :: 0 <= k < |parts| ==> c !in parts[k]
    decreases |s|
  {
    var i := FirstIndex(s, c);
    if i == |s| then [s]
    else [s[..i]] + Split(s[i + 1..], c)
  }

  /** `sep.join(parts)`. */
  function Join(parts: seq<string>, c: char): string
  {
    if |parts| == 0 then ""
    else if |parts| == 1 then parts[0]
    else parts[0] + [c] + Join(parts[1..], c)
  }

  /** The number of times `c` occurs in `s`. */
  function Count(s: string, c: char): nat
  {
    if |s| == 0 then 0
    else (if s[0] == c then 1 else 0) + Count(s[1..], c)
  }

  lemma {:induction false} CountAbsent(s: string, c: char)
    requires c !in s
    ensures Count(s, c) == 0
  {
    if |s| > 0 {
      CountAbsent(s[1..], c);
    }
  }

  lemma {:induction false} CountSplit(s: string, i: nat, c: char)
    requires i < |s| && s[i] == c
    ensures Count(s, c) == Count(s[..i], c) + 1 + Count(s[i + 1..], c)
  {
    if i > 0 {
      assert s[1..][..i - 1] == s[..i][1..];
      assert s[1..][i..] == s[i + 1..];
      CountSplit(s[1..], i - 1, c);
    }
  }

  /** Joining a part in front of at least one more puts the separator between them. */
  lemma JoinCons(p: string, rest: seq<string>, c: char)
    requires |rest| >= 1
    ensures Join([p] + rest, c) == p + [c] + Join(rest, c)
  {
    assert ([p] + rest)[0] == p && ([p] + rest)[1..] == rest;
  }

  /** Splitting at a first separator and joining again puts that separator back between the head and the rest. */
  lemma JoinSplitStep(s: string, c: char)
    requires FirstIndex(s, c) < |s|
    ensures var i := FirstIndex(s, c);
      Join(Split(s, c), c) == s[..i] + [c] + Join(Split(s[i + 1..], c), c)
  {
    var i := FirstIndex(s, c);
    var rest := Split(s[i + 1..], c);
    assert Split(s, c) == [s[..i]] + rest;
    JoinCons(s[..i], rest, c);
  }

  lemma {:induction false} SplitJoinBack(s: string, c: char)
    ensures Join(Split(s, c), c) == s
    decreases |s|
  {
    var i := FirstIndex(s, c);
    if i == |s| {
      assert Split(s, c) == [s];
    } else {
      var t := s[i + 1..];
      JoinSplitStep(s, c);
      SplitJoinBack(t, c);
      Around(s, i);
    }
  }

  /** A string is what comes before an index, the character there, and what comes after. */
  lemma Around(s: string, i: nat)
    requires i < |s|
    ensures s == s[..i] + [s[i]] + s[i + 1..]
  {
  }

  lemma {:induction false} SplitCount(s: string, c: char)
    ensures |Split(s, c)| == Count(s, c) + 1
    decreases |s|
  {
    var i := FirstIndex(s, c);
    if i == |s| {
      assert c !in s;
      CountAbsent(s, c);
    } else {
      SplitCount(s[i + 1..], c);
      CountSplit(s, i, c);
      assert c !in s[..i];
      CountAbsent(s[..i], c);
    }
  }

  /** Splitting then joining gives the string back, and the separator count fixes the part count. */
  lemma SplitJoin(s: string, c: char)
    ensures Join(Split(s, c), c) == s
    ensures |Split(s, c)| == Count(s, c) + 1
  {
    SplitJoinBack(s, c);
    SplitCount(s, c);
  }

  /** A string with exactly one separator splits into the text before it and the text after it. */
  lemma SplitAtOnly(s: string, i: nat, c: char)
    requires i < |s| && s[i] == c
    requires c !in s[..i] && c !in s[i + 1..]
    ensures Split(s, c) == [s[..i], s[i + 1..]]
  {
    assert FirstIndex(s, c) == i by {
      assert forall j :: 0 <= j < i ==> s[..i][j] == s[j];
    }
  }

  predicate IsDigit(ch: char)
  {
    '0' <= ch <= '9'
  }

  /** A non-empty string of ASCII decimal digits. */
  predicate IsDigits(s: string)
  {
    |s| > 0 && forall k :: 0 <= k < |s| ==> IsDigit(s[k])
  }

  /** The value of a string of decimal digits, read most significant digit first. */
  function DigitsValue(s: string): (n: nat)
    requires forall k :: 0 <= k < |s| ==> IsDigit(s[k])
  {
    if |s| == 0 then 0
    else assert IsDigit(s[|s| - 1]); 10 * DigitsValue(s[..|s| - 1]) + (s[|s| - 1] as int - '0' as int)
  }

  /** Python's `int(s)` on the decimal digit strings this model admits. */
  function ParseInt(s: string): (r: Option<nat>)
    ensures r.Some? <==> IsDigits(s)
  {
    if IsDigits(s) then Some(DigitsValue(s)) else None
  }

  /** The two-digit, zero-padded decimal form of `n`, as `f"{n:02d}"` writes it. */
  function TwoDigits(n: nat): (s: string)
    requires n < 100
    ensures IsDigits(s) && |s| == 2
  {
    [('0' as int + n / 10) as char, ('0' as int + n % 10) as char]
  }

  lemma TwoDigitsValue(n: nat)
    requires n < 100
    ensures DigitsValue(TwoDigits(n)) == n
  {
    var s := TwoDigits(n);
    assert s[..1][..0] == [];
    assert DigitsValue(s[..1]) == n / 10;
  }

  /**
   * The characters `str.strip()` removes, those for which `str.isspace()` holds: tab to
   * carriage return, the four ASCII separators and space, next line, no-break space, the
   * Ogham space mark, the en quad to hair space, the line and paragraph separators, the
   * narrow no-break space, the medium mathematical space and the ideographic space.
   */
  predicate IsSpace(ch: char)
  {
    || '\t' <= ch <= '\r'
    || '\U{001C}' <= ch <= ' '
    || ch == '\U{0085}' || ch == '\U{00A0}' || ch == '\U{1680}'
    || '\U{2000}' <= ch <= '\U{200A}'
    || ch == '\U{2028}' || ch == '\U{2029}' || ch == '\U{202F}' || ch == '\U{205F}' || ch == '\U{3000}'
  }

  /** `s.lstrip()`. */
  function StripLeft(s: string): (r: string)
    ensures |r| <= |s| && r == s[|s| - |r|..]
    ensures |r| > 0 ==> !IsSpace(r[0])
    ensures forall k :: 0 <= k < |s| - |r| ==> IsSpace(s[k])
  {
    if |s| > 0 && IsSpace(s[0]) then StripLeft(s[1..]) else s
  }

  /** `s.rstrip()`. */
  function StripRight(s: string): (r: string)
    ensures |r| <= |s| && r == s[..|r|]
    ensures |r| > 0 ==> !IsSpace(r[|r| - 1])
    ensures forall k :: |r| <= k < |s| ==> IsSpace(s[k])
  {
    if |s| > 0 && IsSpace(s[|s| - 1]) then StripRight(s[..|s| - 1]) else s
  }

  /** `s.strip()`. */
  function Strip(s: string): string
  {
    StripRight(StripLeft(s))
  }

  /** Stripping only removes characters, so a character absent from `s` stays absent. */
  lemma StripKeepsAbsent(s: string, c: char)
    requires c !in s
    ensures c !in Strip(s)
  {
    var l := StripLeft(s);
    forall k | 0 <= k < |l| ensures l[k] != c {
      assert l[k] == s[|s| - |l| + k];
    }
    var r := StripRight(l);
    forall k | 0 <= k < |r| ensures r[k] != c {
      assert r[k] == l[k];
    }
  }

  lemma {:induction false} StripLeftSpaces(a: string, x: string)
    requires forall k :: 0 <= k < |a| ==> IsSpace(a[k])
    requires |x| > 0 ==> !IsSpace(x[0])
    ensures StripLeft(a + x) == x
    decreases |a|
  {
    if |a| > 0 {
      assert (a + x)[1..] == a[1..] + x;
      StripLeftSpaces(a[1..], x);
    } else {
      assert a + x == x;
    }
  }

  lemma {:induction false} StripRightSpaces(x: string, b: string)
    requires forall k :: 0 <= k < |b| ==> IsSpace(b[k])
    requires |x| > 0 ==> !IsSpace(x[|x| - 1])
    ensures StripRight(x + b) == x
    decreases |b|
  {
    if |b| > 0 {
      assert (x + b)[..|x + b| - 1] == x + b[..|b| - 1];
      StripRightSpaces(x, b[..|b| - 1]);
    } else {
      assert x + b == x;
    }
  }

  /** Stripping removes exactly the surrounding whitespace: `s == a + Strip(s) + b` with `a`, `b` all blank. */
  lemma StripSurroundedBy(a: string, x: string, b: string)
    requires forall k :: 0 <= k < |a| ==> IsSpace(a[k])
    requires forall k :: 0 <= k < |b| ==> IsSpace(b[k])
    requires |x| > 0 ==> !IsSpace(x[0]) && !IsSpace(x[|x| - 1])
    ensures Strip(a + x + b) == x
  {
    assert a + x + b == a + (x + b);
    if |x| > 0 {
      assert (x + b)[0] == x[0];
    } else {
      assert x + b == b;
      assert forall k :: 0 <= k < |b| ==> (a + b)[k + |a|] == b[k];
    }
    if |x| == 0 && |b| > 0 {
      StripLeftSpaces(a + b, "");
      assert a + b + "" == a + b;
      assert StripLeft(a + (x + b)) == "";
      assert StripRight("") == "";
    } else {
      StripLeftSpaces(a, x + b);
      StripRightSpaces(x, b);
    }
  }
}
