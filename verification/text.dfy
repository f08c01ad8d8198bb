/** The string operations of Python that the route handlers and the chunk
    compiler rely on: `str.isspace`, `strip`, `replace("\n", ". ")`,
    `sep.join`, `str.split()`, `lower` (ASCII letters only), `str(int)`,
    `startswith`, and the `\{.*\}` search (DOTALL) that cuts a JSON object out of a
    language-model reply. */
module Text {
  import opened Common

  /** Python's `str.isspace` for one character: the characters `strip()` removes
      and `split()` splits on. */
  predicate IsSpace(c: char)
  {
    c == ' ' || ('\t' <= c <= '\r') || ('\U{1C}' <= c <= '\U{1F}') || c == '\U{85}' || c == '\U{A0}'
    || c == '\U{1680}' || ('\U{2000}' <= c <= '\U{200A}') || c == '\U{2028}' || c == '\U{2029}'
    || c == '\U{202F}' || c == '\U{205F}' || c == '\U{3000}'
  }

  /** `s.lstrip()` */
  function TrimLeft(s: string): string
  {
    if s != [] && IsSpace(s[0]) then TrimLeft(s[1..]) else s
  }

  /** `s.rstrip()` */
  function TrimRight(s: string): string
  {
    if s != [] && IsSpace(s[|s| - 1]) then TrimRight(s[..|s| - 1]) else s
  }

  /** `s.strip()` */
  function Strip(s: string): string
  {
    TrimRight(TrimLeft(s))
  }

  /** `lstrip` returns a suffix of its argument. */
  lemma {:induction false} TrimLeftSuffix(s: string)
    ensures |TrimLeft(s)| <= |s| && TrimLeft(s) == s[|s| - |TrimLeft(s)|..]
  {
    if s != [] && IsSpace(s[0]) {
      TrimLeftSuffix(s[1..]);
    }
  }

  /** What `lstrip` cuts off is whitespace, and what it keeps starts with a
      non-whitespace character. */
  lemma {:induction false} TrimLeftCut(s: string)
    ensures forall k :: 0 <= k < |s| - |TrimLeft(s)| ==> IsSpace(s[k])
    ensures TrimLeft(s) == [] || !IsSpace(TrimLeft(s)[0])
  {
    if s != [] && IsSpace(s[0]) {
      TrimLeftCut(s[1..]);
    }
  }

  /** `rstrip` returns a prefix of its argument. */
  lemma {:induction false} TrimRightPrefix(s: string)
    ensures |TrimRight(s)| <= |s| && TrimRight(s) == s[..|TrimRight(s)|]
  {
    if s != [] && IsSpace(s[|s| - 1]) {
      TrimRightPrefix(s[..|s| - 1]);
    }
  }

  /** What `rstrip` cuts off is whitespace, and what it keeps ends with a
      non-whitespace character. */
  lemma {:induction false} TrimRightCut(s: string)
    ensures forall k :: |TrimRight(s)| <= k < |s| ==> IsSpace(s[k])
    ensures TrimRight(s) == [] || !IsSpace(TrimRight(s)[|TrimRight(s)| - 1])
  {
    if s != [] && IsSpace(s[|s| - 1]) {
      TrimRightPrefix(s[..|s| - 1]);
      TrimRightCut(s[..|s| - 1]);
    }
  }

  /** `strip` returns a slice `s[i..j]`, and everything it cuts off is whitespace. */
  lemma {:induction false} StripSlice(s: string) returns (i: nat, j: nat)
    ensures i <= j <= |s| && Strip(s) == s[i..j]
    ensures forall k :: 0 <= k < i ==> IsSpace(s[k])
    ensures forall k :: j <= k < |s| ==> IsSpace(s[k])
  {
    var l := TrimLeft(s);
    var r := TrimRight(l);
    TrimLeftSuffix(s);
    TrimLeftCut(s);
    TrimRightPrefix(l);
    TrimRightCut(l);
    i := |s| - |l|;
    j := i + |r|;
    assert r == s[i..j];
    forall k | j <= k < |s|
      ensures IsSpace(s[k])
    {
      assert s[k] == l[k - i];
    }
  }

  /** The result of `strip` neither starts nor ends with whitespace. */
  lemma {:induction false} StripEdges(s: string)
    ensures Strip(s) == [] || (!IsSpace(Strip(s)[0]) && !IsSpace(Strip(s)[|Strip(s)| - 1]))
  {
    var l := TrimLeft(s);
    var r := TrimRight(l);
    TrimLeftCut(s);
    TrimRightPrefix(l);
    TrimRightCut(l);
    if r != [] {
      assert r[0] == l[0];
    }
  }

  /** A string that neither starts nor ends with whitespace is its own strip. */
  lemma {:induction false} StripTrimmed(s: string)
    requires s == [] || (!IsSpace(s[0]) && !IsSpace(s[|s| - 1]))
    ensures Strip(s) == s
  {
  }

  /** Stripping twice is stripping once. */
  lemma {:induction false} StripIdempotent(s: string)
    ensures Strip(Strip(s)) == Strip(s)
  {
    StripEdges(s);
    StripTrimmed(Strip(s));
  }

  /** `s.replace("\n", ". ")` */
  function ReplaceNewlines(s: string): string
  {
    if s == [] then []
    else (if s[0] == '\n' then ". " else [s[0]]) + ReplaceNewlines(s[1..])
  }

  /** After the replacement no newline is left, and text without newlines is
      unchanged. */
  lemma {:induction false} NewlinesReplaced(s: string)
    ensures '\n' !in ReplaceNewlines(s)
    ensures '\n' !in s ==> ReplaceNewlines(s) == s
  {
    if s != [] {
      NewlinesReplaced(s[1..]);
      var head := if s[0] == '\n' then ". " else [s[0]];
      assert ReplaceNewlines(s) == head + ReplaceNewlines(s[1..]);
      assert '\n' !in head;
      if '\n' !in s {
        assert '\n' !in s[1..];
        assert s == [s[0]] + s[1..];
      }
    }
  }

  /** Replacing newlines distributes over concatenation. */
  lemma {:induction false} ReplaceNewlinesAppend(a: string, b: string)
    ensures ReplaceNewlines(a + b) == ReplaceNewlines(a) + ReplaceNewlines(b)
  {
    if a != [] {
      var head := if a[0] == '\n' then ". " else [a[0]];
      var rest := a[1..];
      assert ReplaceNewlines(a + b) == head + ReplaceNewlines(rest + b) by {
        assert (a + b)[0] == a[0];
        assert (a + b)[1..] == rest + b;
      }
      assert ReplaceNewlines(a) == head + ReplaceNewlines(rest);
      ReplaceNewlinesAppend(rest, b);
      assert head + (ReplaceNewlines(rest) + ReplaceNewlines(b))
          == (head + ReplaceNewlines(rest)) + ReplaceNewlines(b);
    } else {
      assert a + b == b;
    }
  }

  /** `sep.join(xs)` */
  function Join(xs: seq<string>, sep: string): string
  {
    if xs == [] then ""
    else if |xs| == 1 then xs[0]
    else xs[0] + sep + Join(xs[1..], sep)
  }

  /** Joining one more item appends the separator and the item. */
  lemma {:induction false} JoinSnoc(xs: seq<string>, x: string, sep: string)
    requires xs != []
    ensures Join(xs + [x], sep) == Join(xs, sep) + sep + x
    decreases |xs|
  {
    if |xs| == 1 {
      assert xs + [x] == [xs[0], x];
      assert [xs[0], x][1..] == [x];
    } else {
      assert (xs + [x])[1..] == xs[1..] + [x];
      JoinSnoc(xs[1..], x, sep);
    }
  }

  /** `s.startswith(p)` */
  predicate StartsWith(s: string, p: string)
  {
    |p| <= |s| && s[..|p|] == p
  }

  /** `p` occurs in `s` at index `i`. */
  predicate OccursAt(s: string, p: string, i: int)
  {
    0 <= i && i + |p| <= |s| && s[i..i + |p|] == p
  }

  /** `p in s` */
  ghost predicate Occurs(s: string, p: string)
  {
    exists i :: OccursAt(s, p, i)
  }

  /** The text before the first occurrence of `sep`, or all of `s` when there is none:
      `s.split(sep)[0]`. */
  function Before(s: string, sep: string): string
    requires sep != []
    decreases |s|
  {
    if |s| < |sep| then s
    else if s[..|sep|] == sep then []
    else [s[0]] + Before(s[1..], sep)
  }

  /** `Before(s, sep)` is a prefix of `s`. */
  lemma {:induction false} BeforeIsPrefix(s: string, sep: string)
    requires sep != []
    ensures |Before(s, sep)| <= |s| && Before(s, sep) == s[..|Before(s, sep)|]
    decreases |s|
  {
    if |s| >= |sep| && s[..|sep|] != sep {
      var rest := Before(s[1..], sep);
      BeforeIsPrefix(s[1..], sep);
      var n := |rest|;
      assert Before(s, sep) == [s[0]] + rest;
      assert rest == s[1..n + 1];
      assert s[..n + 1] == [s[0]] + s[1..n + 1];
    }
  }

  /** `Before(s, sep)` never contains `sep`. */
  lemma {:induction false} BeforeAvoidsSep(s: string, sep: string)
    requires sep != []
    ensures !Occurs(Before(s, sep), sep)
    decreases |s|
  {
    var r := Before(s, sep);
    if |s| >= |sep| && s[..|sep|] != sep {
      var rest := Before(s[1..], sep);
      BeforeAvoidsSep(s[1..], sep);
      BeforeIsPrefix(s, sep);
      forall i | 0 <= i && i + |sep| <= |r|
        ensures !OccursAt(r, sep, i)
      {
        if i == 0 {
          assert r[..|sep|] == s[..|sep|];
        } else {
          assert !OccursAt(rest, sep, i - 1);
          assert rest[i - 1..i - 1 + |sep|] == r[i..i + |sep|];
        }
      }
    }
  }

  /** Without any occurrence of `sep`, `Before` keeps all of `s`. */
  lemma {:induction false} BeforeWithoutSep(s: string, sep: string)
    requires sep != []
    requires !Occurs(s, sep)
    ensures Before(s, sep) == s
    decreases |s|
  {
    if |s| >= |sep| {
      assert !OccursAt(s, sep, 0);
      forall i | 0 <= i && i + |sep| <= |s[1..]|
        ensures !OccursAt(s[1..], sep, i)
      {
        assert !OccursAt(s, sep, i + 1);
        assert s[i + 1..i + 1 + |sep|] == s[1..][i..i + |sep|];
      }
      BeforeWithoutSep(s[1..], sep);
    }
  }

  function Digit(d: nat): (c: char)
    requires d < 10
    ensures '0' <= c <= '9'
  {
    "0123456789"[d]
  }

  /** `str(n)` for a natural number: its decimal digits, no leading zero. */
  function NatToString(n: nat): (r: string)
    ensures |r| >= 1
    ensures forall i :: 0 <= i < |r| ==> '0' <= r[i] <= '9'
    ensures r[0] == '0' ==> n == 0
  {
    if n < 10 then [Digit(n)] else NatToString(n / 10) + [Digit(n % 10)]
  }

  /** `str(n)` for a Python `int`. */
  function IntToString(n: int): (r: string)
    ensures |r| >= 1
    ensures n < 0 <==> r[0] == '-'
  {
    if n < 0 then "-" + NatToString(-n) else NatToString(n)
  }

  /** `s.lower()` on ASCII letters; other characters are kept. */
  function Lower(s: string): (r: string)
    ensures |r| == |s|
    ensures forall i :: 0 <= i < |s| ==> !('A' <= r[i] <= 'Z')
    ensures forall i :: 0 <= i < |s| ==> (IsSpace(r[i]) <==> IsSpace(s[i]))
    ensures forall i :: 0 <= i < |s| && 'A' <= s[i] <= 'Z' ==> r[i] as int == s[i] as int + 32
    ensures forall i :: 0 <= i < |s| && !('A' <= s[i] <= 'Z') ==> r[i] == s[i]
  {
    seq(|s|, i requires 0 <= i < |s| => LowerChar(s[i]))
  }

  /** `c.lower()` on an ASCII letter; any other character is kept. */
  function LowerChar(c: char): char
  {
    if 'A' <= c <= 'Z' then (c as int + 32) as char else c
  }

  /** Length of the run of non-whitespace characters that starts `s`. */
  function WordLength(s: string): (n: nat)
    requires s != [] && !IsSpace(s[0])
    ensures 1 <= n <= |s|
    ensures forall i :: 0 <= i < n ==> !IsSpace(s[i])
    ensures n == |s| || IsSpace(s[n])
  {
    if |s| == 1 || IsSpace(s[1]) then 1 else 1 + WordLength(s[1..])
  }

  /** `s.split()`: the maximal runs of non-whitespace characters, in order. */
  function Words(s: string): (ws: seq<string>)
    ensures forall w :: w in ws ==> w != [] && forall i :: 0 <= i < |w| ==> !IsSpace(w[i])
    decreases |s|
  {
    if s == [] then []
    else if IsSpace(s[0]) then Words(s[1..])
    else
      var n := WordLength(s);
      [s[..n]] + Words(s[n..])
  }

  /** `s[i..j]` is a maximal run of non-whitespace characters of `s`. */
  predicate IsRun(s: string, i: int, j: int)
  {
    0 <= i < j <= |s| && (i == 0 || IsSpace(s[i - 1])) && (j == |s| || IsSpace(s[j]))
    && forall k :: i <= k < j ==> !IsSpace(s[k])
  }

  /** `w` is one of the maximal runs of non-whitespace characters of `s`. */
  ghost predicate IsWord(s: string, w: string)
  {
    exists i, j :: IsRun(s, i, j) && w == s[i..j]
  }

  /** Runs of a suffix that starts after whitespace are the runs of the whole text,
      shifted. */
  lemma {:induction false} RunShift(s: string, d: nat, i: int, j: int)
    requires d <= |s| && (d == 0 || d == |s| || IsSpace(s[d - 1])) && 0 <= i
    ensures IsRun(s[d..], i, j) <==> IsRun(s, i + d, j + d)
    ensures 0 <= i <= j <= |s| - d ==> s[d..][i..j] == s[i + d..j + d]
  {
    var t := s[d..];
    assert forall k :: 0 <= k < |t| ==> t[k] == s[k + d];
    if 0 <= i < j <= |t| {
      if forall k :: i <= k < j ==> !IsSpace(t[k]) {
        forall k | i + d <= k < j + d ensures !IsSpace(s[k]) {
          assert s[k] == t[k - d];
        }
      }
      if forall k :: i + d <= k < j + d ==> !IsSpace(s[k]) {
        forall k | i <= k < j ensures !IsSpace(t[k]) {
          assert t[k] == s[k + d];
        }
      }
    }
  }

  /** `w` is a maximal run of non-whitespace characters of `s` that starts at `d` or later. */
  ghost predicate IsWordFrom(s: string, d: int, w: string)
  {
    exists i, j :: d <= i && IsRun(s, i, j) && w == s[i..j]
  }

  /** A word of the suffix after `d` is a run of the whole text starting at `d` or later. */
  lemma RunsOfSuffix(s: string, d: nat, w: string)
    requires d <= |s| && (d == 0 || d == |s| || IsSpace(s[d - 1]))
    ensures IsWord(s[d..], w) <==> IsWordFrom(s, d, w)
  {
    if IsWord(s[d..], w) {
      SuffixWordUp(s, d, w);
    }
    if IsWordFrom(s, d, w) {
      SuffixWordDown(s, d, w);
    }
  }

  lemma SuffixWordUp(s: string, d: nat, w: string)
    requires d <= |s| && (d == 0 || d == |s| || IsSpace(s[d - 1]))
    requires IsWord(s[d..], w)
    ensures IsWordFrom(s, d, w)
  {
    var i, j :| IsRun(s[d..], i, j) && w == s[d..][i..j];
    RunShift(s, d, i, j);
    assert d <= i + d && IsRun(s, i + d, j + d) && w == s[i + d..j + d];
  }

  lemma SuffixWordDown(s: string, d: nat, w: string)
    requires d <= |s| && (d == 0 || d == |s| || IsSpace(s[d - 1]))
    requires IsWordFrom(s, d, w)
    ensures IsWord(s[d..], w)
  {
    var i, j :| d <= i && IsRun(s, i, j) && w == s[i..j];
    RunShift(s, d, i - d, j - d);
    assert IsRun(s[d..], i - d, j - d) && w == s[d..][i - d..j - d];
  }

  /** A text that starts with a word has that word as its first run, and no other run
      begins before the whitespace that ends it. */
  lemma {:induction false} FirstRun(s: string, i: int, j: int)
    requires s != [] && !IsSpace(s[0]) && IsRun(s, i, j)
    ensures i == 0 ==> j == WordLength(s)
    ensures i != 0 ==> WordLength(s) < i
  {
    var n := WordLength(s);
    assert j < |s| ==> IsSpace(s[j]);
    assert n < |s| ==> IsSpace(s[n]);
    assert 0 < i ==> IsSpace(s[i - 1]);
  }

  /** In a text that starts with whitespace every run starts after the first character. */
  lemma SpaceFirst(s: string, w: string)
    requires s != [] && IsSpace(s[0])
    ensures IsWord(s, w) <==> IsWordFrom(s, 1, w)
  {
    if IsWord(s, w) {
      var i, j :| IsRun(s, i, j) && w == s[i..j];
      assert IsSpace(s[0]);
      assert 1 <= i && IsRun(s, i, j) && w == s[i..j];
    }
  }

  /** In a text that starts with a word, a run is that word or a run after the
      whitespace that ends it. */
  lemma FirstWordSplit(s: string, w: string)
    requires s != [] && !IsSpace(s[0]) && IsWord(s, w)
    ensures var n := WordLength(s);
      w == s[..n] || IsWordFrom(s, if n == |s| then n else n + 1, w)
  {
    var n := WordLength(s);
    var d := if n == |s| then n else n + 1;
    var i, j :| IsRun(s, i, j) && w == s[i..j];
    FirstRun(s, i, j);
    if i != 0 {
      assert d <= i && IsRun(s, i, j) && w == s[i..j];
    }
  }

  /** The leading word of a text is one of its words. */
  lemma FirstWordIsWord(s: string)
    requires s != [] && !IsSpace(s[0])
    ensures IsWord(s, s[..WordLength(s)])
  {
    var n := WordLength(s);
    assert IsRun(s, 0, n) && s[..n] == s[0..n];
  }

  /** A run starting at `d` or later is a run. */
  lemma WordFromIsWord(s: string, d: int, w: string)
    requires IsWordFrom(s, d, w)
    ensures IsWord(s, w)
  {
    var i, j :| d <= i && IsRun(s, i, j) && w == s[i..j];
    assert IsRun(s, i, j) && w == s[i..j];
  }

  /** `split()` gives exactly the maximal runs of non-whitespace characters. */
  lemma {:induction false} WordsAreRuns(s: string)
    ensures forall w :: w in Words(s) <==> IsWord(s, w)
    decreases |s|
  {
    if s == [] {
    } else if IsSpace(s[0]) {
      WordsAreRuns(s[1..]);
      WordsAfterSpace(s);
    } else {
      var n := WordLength(s);
      var d := if n == |s| then n else n + 1;
      WordsAreRuns(s[d..]);
      WordsAfterWord(s, d);
    }
  }

  /** The words of a text that starts with whitespace, from those of the rest. */
  lemma WordsAfterSpace(s: string)
    requires s != [] && IsSpace(s[0])
    requires forall w :: w in Words(s[1..]) <==> IsWord(s[1..], w)
    ensures forall w :: w in Words(s) <==> IsWord(s, w)
  {
    forall w ensures w in Words(s) <==> IsWord(s, w) {
      RunsOfSuffix(s, 1, w);
      SpaceFirst(s, w);
    }
  }

  /** The words of a text that starts with a word, from those after the whitespace
      that ends it. */
  lemma WordsAfterWord(s: string, d: nat)
    requires s != [] && !IsSpace(s[0])
    requires d == if WordLength(s) == |s| then |s| else WordLength(s) + 1
    requires forall w :: w in Words(s[d..]) <==> IsWord(s[d..], w)
    ensures forall w :: w in Words(s) <==> IsWord(s, w)
  {
    var n := WordLength(s);
    assert Words(s[n..]) == Words(s[d..]) by {
      if n < |s| {
        assert s[n..][0] == s[n] && s[n..][1..] == s[d..];
      }
    }
    assert Words(s) == [s[..n]] + Words(s[d..]);
    FirstWordIsWord(s);
    forall w ensures w in Words(s) <==> IsWord(s, w) {
      RunsOfSuffix(s, d, w);
      if IsWord(s, w) {
        FirstWordSplit(s, w);
      }
      if IsWordFrom(s, d, w) {
        WordFromIsWord(s, d, w);
      }
    }
  }

  /** Index of the first occurrence of `c`. */
  function IndexOf(s: string, c: char): (r: Option<nat>)
    ensures r.None? <==> c !in s
    ensures r.Some? ==> r.value < |s| && s[r.value] == c && c !in s[..r.value]
  {
    if s == [] then None
    else if s[0] == c then Some(0)
    else
      var r := IndexOf(s[1..], c);
      if r.None? then None
      else
        assert s[..r.value + 1] == [s[0]] + s[1..][..r.value];
        Some(r.value + 1)
  }

  /** Index of the last occurrence of `c`. */
  function LastIndexOf(s: string, c: char): (r: Option<nat>)
    ensures r.None? <==> c !in s
    ensures r.Some? ==> r.value < |s| && s[r.value] == c && c !in s[r.value + 1..]
  {
    if s == [] then None
    else if s[|s| - 1] == c then Some(|s| - 1)
    else
      var r := LastIndexOf(s[..|s| - 1], c);
      if r.None? then None
      else
        assert s[r.value + 1..] == s[..|s| - 1][r.value + 1..] + [s[|s| - 1]];
        Some(r.value)
  }

  /** There is a `{` somewhere before a `}`. */
  ghost predicate HasBracePair(s: string)
  {
    exists i, j :: 0 <= i < j < |s| && s[i] == '{' && s[j] == '}'
  }

  /** The text matched by `re.search(r"\{.*\}", s, re.DOTALL)`: the leftmost match
      starts at the first `{` and, `.*` being greedy, ends at the last `}`. */
  function JsonSpan(s: string): (r: Option<string>)
    ensures r.None? <==> !HasBracePair(s)
    ensures r.Some? ==> exists i, j :: (0 <= i < j < |s| && r.value == s[i..j + 1]
      && s[i] == '{' && s[j] == '}' && '{' !in s[..i] && '}' !in s[j + 1..])
  {
    var first := IndexOf(s, '{');
    var last := LastIndexOf(s, '}');
    if first.Some? && last.Some? && first.value < last.value then
      Some(s[first.value..last.value + 1])
    else
      NoBracePair(s);
      None
  }

  /** With no `{` before the last `}`, there is no brace pair. */
  lemma NoBracePair(s: string)
    requires var first, last := IndexOf(s, '{'), LastIndexOf(s, '}');
      !(first.Some? && last.Some? && first.value < last.value)
    ensures !HasBracePair(s)
  {
    var first, last := IndexOf(s, '{'), LastIndexOf(s, '}');
    if first.Some? {
      forall k | 0 <= k < first.value
        ensures s[k] != '{'
      {
        assert s[..first.value][k] == s[k];
      }
    }
    if last.Some? {
      forall k | last.value < k < |s|
        ensures s[k] != '}'
      {
        assert s[last.value + 1..][k - last.value - 1] == s[k];
      }
    }
  }
}
