/** Strings as the three runtimes of the system see them: trimming in Go, JavaScript and
    Python differs in which characters count as blank, so the runtime is a parameter. */
module Text {

  datatype Option<+T> = None | Some(value: T)

  datatype Result<+T, +E> = Ok(value: T) | Err(error: E)

  datatype Runtime = Go | JavaScript | Python

  /** Blank in every one of the three runtimes. */
  predicate IsCommonSpace(c: char) {
    || '\t' <= c <= '\r'
    || c == ' '
    || c == '\U{00A0}'
    || c == '\U{1680}'
    || '\U{2000}' <= c <= '\U{200A}'
    || c == '\U{2028}'
    || c == '\U{2029}'
    || c == '\U{202F}'
    || c == '\U{205F}'
    || c == '\U{3000}'
  }

  predicate IsSpace(runtime: Runtime, c: char) {
    || IsCommonSpace(c)
    || (runtime != JavaScript && c == '\U{0085}')
    || (runtime == JavaScript && c == '\U{FEFF}')
    || (runtime == Python && '\U{001C}' <= c <= '\U{001F}')
  }

  predicate IsTrimmed(runtime: Runtime, s: string) {
    s == "" || (!IsSpace(runtime, s[0]) && !IsSpace(runtime, s[|s| - 1]))
  }

  function TrimLeft(runtime: Runtime, s: string): (r: string)
    ensures r == "" || !IsSpace(runtime, r[0])
    ensures s != "" && !IsSpace(runtime, s[|s| - 1]) ==> r != "" && r[|r| - 1] == s[|s| - 1]
  {
    if s != "" && IsSpace(runtime, s[0]) then TrimLeft(runtime, s[1..]) else s
  }

  function TrimRight(runtime: Runtime, s: string): (r: string)
    ensures r == "" || !IsSpace(runtime, r[|r| - 1])
    ensures r <= s
  {
    if s != "" && IsSpace(runtime, s[|s| - 1]) then TrimRight(runtime, s[..|s| - 1]) else s
  }

  /** Trimming yields a trimmed string and leaves trimmed strings alone, so it is idempotent. */
  function Trim(runtime: Runtime, s: string): (r: string)
    ensures IsTrimmed(runtime, r)
    ensures IsTrimmed(runtime, s) ==> r == s
  {
    TrimLeft(runtime, TrimRight(runtime, s))
  }

  ghost predicate AllBlank(runtime: Runtime, s: string) {
    forall i :: 0 <= i < |s| ==> IsSpace(runtime, s[i])
  }

  lemma {:induction false} TrimLeftCuts(runtime: Runtime, s: string) returns (i: nat)
    ensures i <= |s| && TrimLeft(runtime, s) == s[i..] && AllBlank(runtime, s[..i])
  {
    if s != "" && IsSpace(runtime, s[0]) {
      var j := TrimLeftCuts(runtime, s[1..]);
      i := j + 1;
      assert s[..i] == [s[0]] + s[1..][..j];
    } else {
      i := 0;
    }
  }

  lemma {:induction false} TrimRightCuts(runtime: Runtime, s: string) returns (j: nat)
    ensures j <= |s| && TrimRight(runtime, s) == s[..j] && AllBlank(runtime, s[j..])
  {
    if s != "" && IsSpace(runtime, s[|s| - 1]) {
      j := TrimRightCuts(runtime, s[..|s| - 1]);
      assert s[j..] == s[..|s| - 1][j..] + [s[|s| - 1]];
    } else {
      j := |s|;
    }
  }

  /** Trimming takes blanks off both ends, all of them, and nothing else. */
  lemma TrimCuts(runtime: Runtime, s: string)
    ensures exists a, b :: s == a + Trim(runtime, s) + b && AllBlank(runtime, a) && AllBlank(runtime, b)
    ensures IsTrimmed(runtime, Trim(runtime, s))
  {
    var j := TrimRightCuts(runtime, s);
    var i := TrimLeftCuts(runtime, s[..j]);
    assert s == s[..i] + Trim(runtime, s) + s[j..];
    assert s[..j][..i] == s[..i];
  }

  lemma TrimsToItself(runtime: Runtime, s: string)
    requires IsTrimmed(runtime, s)
    ensures Trim(runtime, s) == s
  {
  }

  function TrimAll(runtime: Runtime, xs: seq<string>): (r: seq<string>)
    ensures |r| == |xs|
    ensures forall i :: 0 <= i < |xs| ==> r[i] == Trim(runtime, xs[i])
  {
    seq(|xs|, i requires 0 <= i < |xs| => Trim(runtime, xs[i]))
  }

  predicate StartsWith(s: string, prefix: string) {
    |prefix| <= |s| && s[..|prefix|] == prefix
  }

  /** The non-empty strings of xs, in order: JavaScript's filter(Boolean). */
  function NonEmpty(xs: seq<string>): (r: seq<string>)
    ensures forall x :: x in r <==> x in xs && x != ""
  {
    if xs == [] then [] else (if xs[0] == "" then [] else [xs[0]]) + NonEmpty(xs[1..])
  }

  lemma {:induction false} NonEmptyBag(xs: seq<string>)
    ensures multiset(NonEmpty(xs)) == multiset(xs)["" := 0]
  {
    if xs != [] {
      NonEmptyBag(xs[1..]);
      assert xs == [xs[0]] + xs[1..];
    }
  }

  lemma {:induction false} NonEmptyKeepsAll(xs: seq<string>)
    requires "" !in xs
    ensures NonEmpty(xs) == xs
  {
    if xs != [] {
      NonEmptyKeepsAll(xs[1..]);
    }
  }
}
