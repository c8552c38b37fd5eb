/** Task tags: the normal form the server stores, and the text field the editor shows.
    Lower-casing is a parameter; nothing is assumed about it. */
module Tags {
  import opened Text

  const MAX_TAGS := 24
  const MAX_PARSED := 40

  // --- the server's normal form ---

  predicate HasKey(lower: string -> string, tags: seq<string>, key: string) {
    exists t :: t in tags && lower(t) == key
  }

  /** The trimmed non-blank entries of raw, first spelling of each lower-cased key, in order. */
  function Kept(lower: string -> string, raw: seq<string>): seq<string> {
    if raw == [] then [] else
      var kept, t := Kept(lower, raw[..|raw| - 1]), Trim(Go, raw[|raw| - 1]);
      if t == "" || HasKey(lower, kept, lower(t)) then kept else kept + [t]
  }

  function Normalized(lower: string -> string, raw: seq<string>): seq<string> {
    var kept := Kept(lower, raw);
    if |kept| <= MAX_TAGS then kept else kept[..MAX_TAGS]
  }

  ghost predicate DistinctKeys(lower: string -> string, tags: seq<string>) {
    forall i, j :: 0 <= i < j < |tags| ==> lower(tags[i]) != lower(tags[j])
  }

  ghost predicate AllTrimmed(runtime: Runtime, tags: seq<string>) {
    forall i :: 0 <= i < |tags| ==> tags[i] != "" && IsTrimmed(runtime, tags[i])
  }

  ghost predicate NormalForm(lower: string -> string, tags: seq<string>) {
    |tags| <= MAX_TAGS && AllTrimmed(Go, tags) && DistinctKeys(lower, tags)
  }

  method NormalizeTaskTags(lower: string -> string, raw: seq<string>) returns (out: seq<string>)
    ensures out == Normalized(lower, raw)
  {
    var seen: set<string> := {};
    out := [];
    assert raw[..|raw|] == raw;
    for i := 0 to |raw|
      invariant out == Kept(lower, raw[..i]) && |out| < MAX_TAGS
      invariant forall key :: key in seen <==> HasKey(lower, out, key)
    {
      assert raw[..i + 1][..i] == raw[..i];
      var t := Trim(Go, raw[i]);
      if t == "" {
        continue;
      }
      var key := lower(t);
      if key in seen {
        continue;
      }
      seen := seen + {key};
      out := out + [t];
      if |out| >= MAX_TAGS {
        KeptPrefix(lower, raw, i + 1);
        break;
      }
    }
  }

  lemma {:induction false} KeptPrefix(lower: string -> string, raw: seq<string>, i: nat)
    requires i <= |raw|
    ensures Kept(lower, raw[..i]) <= Kept(lower, raw)
    decreases |raw| - i
  {
    if i == |raw| {
      assert raw[..i] == raw;
    } else {
      assert raw[..i + 1][..i] == raw[..i];
      KeptPrefix(lower, raw, i + 1);
    }
  }

  lemma {:induction false} KeptIsClean(lower: string -> string, raw: seq<string>)
    ensures AllTrimmed(Go, Kept(lower, raw)) && DistinctKeys(lower, Kept(lower, raw))
  {
    if raw != [] {
      KeptIsClean(lower, raw[..|raw| - 1]);
    }
  }

  lemma {:induction false} KeptFixesClean(lower: string -> string, tags: seq<string>)
    requires AllTrimmed(Go, tags) && DistinctKeys(lower, tags)
    ensures Kept(lower, tags) == tags
  {
    if tags != [] {
      var init, t := tags[..|tags| - 1], tags[|tags| - 1];
      KeptFixesClean(lower, init);
      assert tags == init + [t];
    }
  }

  lemma NormalizedIsNormal(lower: string -> string, raw: seq<string>)
    ensures NormalForm(lower, Normalized(lower, raw))
  {
    KeptIsClean(lower, raw);
  }

  /** Normal forms are exactly the fixed points; in particular normalising twice changes nothing. */
  lemma NormalizeFixesExactlyNormal(lower: string -> string, raw: seq<string>)
    ensures Normalized(lower, raw) == raw <==> NormalForm(lower, raw)
    ensures Normalized(lower, Normalized(lower, raw)) == Normalized(lower, raw)
  {
    NormalizedIsNormal(lower, raw);
    KeptFixesClean(lower, Normalized(lower, raw));
    if NormalForm(lower, raw) {
      KeptFixesClean(lower, raw);
    }
  }

  /** Entry i is the first of its key: not blank, and no earlier entry has that key. */
  ghost predicate FirstOccurrence(lower: string -> string, raw: seq<string>, i: nat)
    requires i < |raw|
  {
    var t := Trim(Go, raw[i]);
    t != "" && forall j :: 0 <= j < i && Trim(Go, raw[j]) != "" ==> lower(Trim(Go, raw[j])) != lower(t)
  }

  lemma {:induction false} KeptKeys(lower: string -> string, raw: seq<string>, key: string)
    ensures HasKey(lower, Kept(lower, raw), key) <==>
      exists j :: 0 <= j < |raw| && Trim(Go, raw[j]) != "" && lower(Trim(Go, raw[j])) == key
  {
    if raw != [] {
      var init := raw[..|raw| - 1];
      KeptKeys(lower, init, key);
      assert forall j :: 0 <= j < |init| ==> raw[j] == init[j];
      var t := Trim(Go, raw[|raw| - 1]);
      KeptKeys(lower, init, lower(t));
      var kept := Kept(lower, init);
      if t != "" && !HasKey(lower, kept, lower(t)) {
        assert forall x :: x in kept + [t] <==> x in kept || x == t;
      }
    }
  }

  lemma KeptStep(lower: string -> string, raw: seq<string>, i: nat)
    requires i < |raw|
    ensures var (kept, t) := (Kept(lower, raw[..i]), Trim(Go, raw[i]));
      Kept(lower, raw[..i + 1]) == if t == "" || HasKey(lower, kept, lower(t)) then kept else kept + [t]
  {
    assert raw[..i + 1][..i] == raw[..i];
  }

  lemma FirstIsNewKey(lower: string -> string, raw: seq<string>, i: nat)
    requires i < |raw|
    ensures var t := Trim(Go, raw[i]);
      FirstOccurrence(lower, raw, i) <==> t != "" && !HasKey(lower, Kept(lower, raw[..i]), lower(t))
  {
    KeptKeys(lower, raw[..i], lower(Trim(Go, raw[i])));
    assert forall j :: 0 <= j < i ==> raw[..i][j] == raw[j];
  }

  /** Each entry adds itself at the end exactly when it is a first occurrence, so the kept
      tags are the first occurrences in their original order. */
  lemma KeptInOrder(lower: string -> string, raw: seq<string>, i: nat)
    requires i < |raw|
    ensures var k := |Kept(lower, raw[..i])|;
      if FirstOccurrence(lower, raw, i)
      then k < |Kept(lower, raw)| && Kept(lower, raw)[k] == Trim(Go, raw[i])
      else Kept(lower, raw[..i + 1]) == Kept(lower, raw[..i])
  {
    var kept, more := Kept(lower, raw[..i]), Kept(lower, raw[..i + 1]);
    KeptStep(lower, raw, i);
    FirstIsNewKey(lower, raw, i);
    KeptPrefix(lower, raw, i + 1);
    if FirstOccurrence(lower, raw, i) {
      assert more == kept + [Trim(Go, raw[i])];
      assert Kept(lower, raw)[|kept|] == more[|kept|];
    }
  }

  // --- the editor's text field ---

  predicate IsSeparator(c: char) {
    c == ',' || c == ';' || c == '\n'
  }

  ghost predicate SeparatorFree(s: string) {
    forall i :: 0 <= i < |s| ==> !IsSeparator(s[i])
  }

  /** The length of the leading run of characters that are (or are not) separators. */
  function Span(s: string, separators: bool): (n: nat)
    ensures n <= |s|
    ensures forall i :: 0 <= i < n ==> IsSeparator(s[i]) == separators
    ensures n < |s| ==> IsSeparator(s[n]) != separators
  {
    if s == "" || IsSeparator(s[0]) != separators then 0 else 1 + Span(s[1..], separators)
  }

  /** Splitting on maximal runs of separators. */
  function SplitRuns(s: string): (r: seq<string>)
    ensures forall piece :: piece in r ==> SeparatorFree(piece)
    decreases |s|
  {
    var n := Span(s, false);
    if n == |s| then [s] else
      var m := Span(s[n..], true);
      assert IsSeparator(s[n..][0]);
      [s[..n]] + SplitRuns(s[n + m..])
  }

  function ParseTagsInput(value: string): seq<string> {
    var tags := NonEmpty(TrimAll(JavaScript, SplitRuns(value)));
    if |tags| <= MAX_PARSED then tags else tags[..MAX_PARSED]
  }

  function TagsInputFromTask(tags: seq<string>): string {
    if tags == [] then "" else if |tags| == 1 then tags[0] else tags[0] + ", " + TagsInputFromTask(tags[1..])
  }

  ghost predicate AllSeparatorFree(tags: seq<string>) {
    forall i :: 0 <= i < |tags| ==> SeparatorFree(tags[i])
  }

  /** Tags the text field can hold: trimmed as JavaScript trims, and free of separators. */
  ghost predicate Editable(tags: seq<string>) {
    |tags| <= MAX_PARSED && AllTrimmed(JavaScript, tags) && AllSeparatorFree(tags)
  }

  lemma SpanIs(s: string, separators: bool, n: nat)
    requires n <= |s|
    requires forall i :: 0 <= i < n ==> IsSeparator(s[i]) == separators
    requires n < |s| ==> IsSeparator(s[n]) != separators
    ensures Span(s, separators) == n
  {
  }

  lemma SplitStep(head: string, rest: string)
    requires SeparatorFree(head) && rest != "" && !IsSeparator(rest[0])
    ensures SplitRuns(head + ("," + rest)) == [head] + SplitRuns(rest)
  {
    var s := head + ("," + rest);
    SpanIs(s, false, |head|);
    assert s[|head|..] == "," + rest;
    SpanIs(s[|head|..], true, 1);
    assert s[..|head|] == head && s[|head| + 1..] == rest;
  }

  lemma SplitWhole(s: string)
    requires SeparatorFree(s)
    ensures SplitRuns(s) == [s]
  {
    SpanIs(s, false, |s|);
  }

  lemma TrimsOneSpace(s: string)
    requires |s| >= 2 && s[0] == ' ' && IsTrimmed(JavaScript, s[1..])
    ensures Trim(JavaScript, s) == s[1..]
  {
    assert s[|s| - 1] == s[1..][|s| - 2];
    assert TrimRight(JavaScript, s) == s;
    assert TrimLeft(JavaScript, s[1..]) == s[1..];
    assert IsSpace(JavaScript, ' ');
  }

  lemma TrimPadded(pad: string, t: string)
    requires pad == "" || pad == " "
    requires t != "" && IsTrimmed(JavaScript, t)
    ensures Trim(JavaScript, pad + t) == t
  {
    var s := pad + t;
    if pad == "" {
      assert s == t;
    } else {
      assert s[0] == ' ' && s[1..] == t && s[|s| - 1] == t[|t| - 1];
      TrimsOneSpace(s);
    }
  }

  lemma TrimAllCons(head: string, rest: seq<string>)
    ensures TrimAll(JavaScript, [head] + rest) == [Trim(JavaScript, head)] + TrimAll(JavaScript, rest)
  {
  }

  lemma SplitFirst(head: string, text: string)
    requires SeparatorFree(head)
    ensures SplitRuns(head + ("," + (" " + text))) == [head] + SplitRuns(" " + text)
  {
    SplitStep(head, " " + text);
  }

  lemma JoinedText(pad: string, tags: seq<string>)
    requires |tags| > 1
    ensures pad + TagsInputFromTask(tags) == (pad + tags[0]) + ("," + (" " + TagsInputFromTask(tags[1..])))
  {
  }

  lemma {:induction false} SplitJoined(pad: string, tags: seq<string>)
    requires pad == "" || pad == " "
    requires tags != [] && AllTrimmed(JavaScript, tags) && AllSeparatorFree(tags)
    ensures TrimAll(JavaScript, SplitRuns(pad + TagsInputFromTask(tags))) == tags
    decreases |tags|
  {
    var head := pad + tags[0];
    TrimPadded(pad, tags[0]);
    if |tags| == 1 {
      SplitWhole(head);
    } else {
      var text := TagsInputFromTask(tags[1..]);
      JoinedText(pad, tags);
      SplitFirst(head, text);
      SplitJoined(" ", tags[1..]);
      TrimAllCons(head, SplitRuns(" " + text));
    }
  }

  lemma {:induction false} TrimKeepsSeparatorFree(s: string)
    requires SeparatorFree(s)
    ensures SeparatorFree(Trim(JavaScript, s))
  {
    TrimLeftIsSuffix(TrimRight(JavaScript, s));
  }

  lemma {:induction false} TrimLeftIsSuffix(s: string)
    ensures |TrimLeft(JavaScript, s)| <= |s|
    ensures TrimLeft(JavaScript, s) == s[|s| - |TrimLeft(JavaScript, s)|..]
  {
    if s != "" && IsSpace(JavaScript, s[0]) {
      TrimLeftIsSuffix(s[1..]);
    }
  }

  lemma ParsedIsEditable(value: string)
    ensures Editable(ParseTagsInput(value))
  {
    var pieces := SplitRuns(value);
    var parsed := NonEmpty(TrimAll(JavaScript, pieces));
    forall i | 0 <= i < |parsed|
      ensures parsed[i] != "" && IsTrimmed(JavaScript, parsed[i]) && SeparatorFree(parsed[i])
    {
      assert parsed[i] in parsed;
      var k :| 0 <= k < |pieces| && TrimAll(JavaScript, pieces)[k] == parsed[i];
      assert pieces[k] in pieces;
      TrimKeepsSeparatorFree(pieces[k]);
    }
  }

  /** Showing tags in the text field and reading them back is the identity for exactly the
      editable lists. */
  lemma EditorRoundTrip(tags: seq<string>)
    ensures ParseTagsInput(TagsInputFromTask(tags)) == tags <==> Editable(tags)
  {
    ParsedIsEditable(TagsInputFromTask(tags));
    if tags == [] {
      SplitWhole("");
      assert TrimAll(JavaScript, [""]) == [""];
      assert NonEmpty([""]) == [];
    } else if Editable(tags) {
      assert "" + TagsInputFromTask(tags) == TagsInputFromTask(tags);
      SplitJoined("", tags);
      assert "" !in tags;
      NonEmptyKeepsAll(tags);
    }
  }

  /** A stored tag list survives the text field unless a tag contains a separator or begins or
      ends with U+FEFF: the one character JavaScript trims and Go does not. */
  lemma NormalTagsSurviveEditor(lower: string -> string, tags: seq<string>)
    requires NormalForm(lower, tags)
    ensures ParseTagsInput(TagsInputFromTask(tags)) == tags <==>
      AllSeparatorFree(tags) && forall i :: 0 <= i < |tags| ==>
        tags[i][0] != '\U{FEFF}' && tags[i][|tags[i]| - 1] != '\U{FEFF}'
  {
    EditorRoundTrip(tags);
  }
}
