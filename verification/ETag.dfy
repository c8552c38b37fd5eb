/** Entity tags: how a version is printed into an ETag header and read back from If-Match. */
module ETag {
  import opened Text

  const INT64_MAX := 0x7FFF_FFFF_FFFF_FFFF
  const INT64_MIN := -0x8000_0000_0000_0000

  // --- decimal numerals ---

  function Digit(d: nat): char
    requires d < 10
  {
    "0123456789"[d]
  }

  predicate IsDigit(c: char) {
    '0' <= c <= '9'
  }

  function DigitValue(c: char): (d: nat)
    requires IsDigit(c)
    ensures d < 10 && Digit(d) == c
  {
    (c as int) - ('0' as int)
  }

  predicate AllDigits(s: string) {
    forall i :: 0 <= i < |s| ==> IsDigit(s[i])
  }

  function Decimal(n: nat): (s: string)
    ensures s != "" && AllDigits(s)
  {
    (if n < 10 then "" else Decimal(n / 10)) + [Digit(n % 10)]
  }

  function NumeralValue(s: string): nat
    requires AllDigits(s)
  {
    if s == "" then 0 else 10 * NumeralValue(s[..|s| - 1]) + DigitValue(s[|s| - 1])
  }

  lemma NumeralGrows(s: string, d: nat)
    requires AllDigits(s) && d < 10
    ensures AllDigits(s + [Digit(d)]) && NumeralValue(s + [Digit(d)]) == 10 * NumeralValue(s) + d
  {
    assert (s + [Digit(d)])[..|s|] == s;
  }

  lemma {:induction false} DecimalReadsBack(n: nat)
    ensures NumeralValue(Decimal(n)) == n
  {
    if n >= 10 {
      DecimalReadsBack(n / 10);
      NumeralGrows(Decimal(n / 10), n % 10);
    } else {
      NumeralGrows("", n);
      assert Decimal(n) == "" + [Digit(n)];
    }
  }

  // --- the server ---

  /** strconv.ParseInt in base 10 with 64 bits: an optional sign, then digits, within int64. */
  function ParseInt64(s: string): Option<int> {
    var negative, signed := s != "" && s[0] == '-', s != "" && (s[0] == '-' || s[0] == '+');
    var digits := if signed then s[1..] else s;
    if digits == "" || !AllDigits(digits) then None else
      var n := if negative then 0 - NumeralValue(digits) else NumeralValue(digits) as int;
      if INT64_MIN <= n <= INT64_MAX then Some(n) else None
  }

  function PrintInt(v: int): string {
    if v < 0 then "-" + Decimal(-v) else Decimal(v)
  }

  function TaskETag(version: int): string {
    "\"" + PrintInt(version) + "\""
  }

  /** Removes every leading and trailing double quote. */
  function TrimQuotes(s: string): string {
    if s != "" && s[0] == '"' then TrimQuotes(s[1..])
    else if s != "" && s[|s| - 1] == '"' then TrimQuotes(s[..|s| - 1])
    else s
  }

  function OpaqueTag(header: string): string {
    var value := Trim(Go, header);
    TrimQuotes(if StartsWith(value, "W/") then value[2..] else value)
  }

  function ParseIfMatch(header: string): Option<int> {
    var value := Trim(Go, header);
    if value == "" || value == "*" then None else
      var tag := OpaqueTag(header);
      if tag == "" then None else
        match ParseInt64(tag)
        case Some(version) => if version <= 0 then None else Some(version)
        case None => None
  }

  // --- the client ---

  /** No header for a missing version; JavaScript prints every safe integer exactly. */
  function EtagFromVersion(version: int): Option<string> {
    if version <= 0 then None else Some("\"" + Decimal(version) + "\"")
  }

  // --- round trips ---

  lemma {:induction false} TrimQuotesKeeps(s: string)
    requires s != "" && s[0] != '"' && s[|s| - 1] != '"'
    ensures TrimQuotes(s) == s
    ensures TrimQuotes("\"" + s + "\"") == s
  {
    var q := "\"" + s + "\"";
    assert q[1..] == s + "\"";
    assert (s + "\"")[..|s|] == s;
    assert TrimQuotes(s + "\"") == TrimQuotes(s);
  }

  lemma PrintedTag(v: int)
    ensures OpaqueTag(TaskETag(v)) == PrintInt(v) && PrintInt(v) != ""
    ensures Trim(Go, TaskETag(v)) == TaskETag(v)
  {
    var s, tag := PrintInt(v), TaskETag(v);
    assert tag[0] == '"' && tag[|tag| - 1] == '"';
    assert "W/"[0] == 'W';
    assert !StartsWith(tag, "W/");
    TrimQuotesKeeps(s);
  }

  lemma ParsesPrinted(v: int)
    ensures ParseInt64(PrintInt(v)) == if INT64_MIN <= v <= INT64_MAX then Some(v) else None
  {
    var s := PrintInt(v);
    DecimalReadsBack(if v < 0 then -v else v);
    if v < 0 {
      assert s[1..] == Decimal(-v);
    } else {
      assert IsDigit(s[0]);
    }
  }

  /** Reading back a printed tag gives the version exactly when it is positive and fits an
      int64; every other printed number is treated as no precondition at all. */
  lemma ETagRoundTrip(v: int)
    ensures ParseIfMatch(TaskETag(v)) == if 1 <= v <= INT64_MAX then Some(v) else None
  {
    PrintedTag(v);
    ParsesPrinted(v);
    assert TaskETag(v) != "*";
  }

  /** Client and server print the same tag, and the server reads the client's tag as its version. */
  lemma ClientTagUnderstood(v: int)
    ensures EtagFromVersion(v).Some? <==> v >= 1
    ensures v >= 1 ==> EtagFromVersion(v) == Some(TaskETag(v))
    ensures 1 <= v <= INT64_MAX ==> ParseIfMatch(EtagFromVersion(v).value) == Some(v)
  {
    ETagRoundTrip(v);
  }

  /** All headers that carry a version: after the outer blanks, an optional weak marker and any
      quotes are gone, an optionally signed numeral in the positive int64 range is left. */
  lemma ParseIfMatchMeaning(header: string, v: int)
    ensures ParseIfMatch(header) == Some(v) <==>
      && 1 <= v <= INT64_MAX && Trim(Go, header) != "" && Trim(Go, header) != "*"
      && exists digits :: digits != "" && AllDigits(digits) && NumeralValue(digits) == v
           && (OpaqueTag(header) == digits || OpaqueTag(header) == "+" + digits)
  {
    var tag := OpaqueTag(header);
    if ParseIfMatch(header) == Some(v) {
      var digits := if tag[0] == '+' then tag[1..] else tag;
      assert tag[0] == '+' ==> tag == "+" + digits;
      assert AllDigits(digits);
    }
    if digits :| digits != "" && AllDigits(digits) && NumeralValue(digits) == v && (tag == digits || tag == "+" + digits) {
      if tag == digits {
        assert IsDigit(tag[0]);
      } else {
        assert tag[1..] == digits;
      }
    }
  }

  /** Section 13.1.1 of RFC 9110 compares If-Match strongly, so a weak tag never matches there;
      this server reads a weak tag like the strong one. */
  lemma WeakTagReadAsStrong(v: int)
    ensures ParseIfMatch("W/" + TaskETag(v)) == ParseIfMatch(TaskETag(v))
  {
    var weak := "W/" + TaskETag(v);
    PrintedTag(v);
    assert weak[0] == 'W' && weak[|weak| - 1] == '"';
    assert weak[..2] == "W/" && weak[2..] == TaskETag(v);
    assert Trim(Go, weak) == weak && StartsWith(weak, "W/");
    assert OpaqueTag(weak) == OpaqueTag(TaskETag(v));
  }

  // --- against the standard ---

  /** A list of tags, cut at the commas outside quotes. */
  function Members(s: string, quoted: bool): (r: seq<string>)
    ensures r != []
  {
    if s == "" then [""] else
      var rest := Members(s[1..], quoted != (s[0] == '"'));
      if s[0] == ',' && !quoted then [""] + rest else [[s[0]] + rest[0]] + rest[1..]
  }

  /** Strong comparison of a header with the tag of version v, by sections 8.8.3.2 and 13.1.1 of
      RFC 9110: a star matches whatever is there, a list by any of its members. */
  predicate StrongMatch(header: string, v: int) {
    Trim(Go, header) == "*" || exists m :: m in Members(header, false) && Trim(Go, m) == TaskETag(v)
  }

  /** The server lets an update of version v pass: the header is read as v, or not read at all. */
  predicate LetsPass(header: string, v: int) {
    ParseIfMatch(header) == None || ParseIfMatch(header) == Some(v)
  }

  lemma PrintedApart(v: int, w: int)
    requires v >= 1 && w >= 1 && TaskETag(v) == TaskETag(w)
    ensures v == w
  {
    assert PrintInt(v) == TaskETag(v)[1..|TaskETag(v)| - 1] && PrintInt(w) == TaskETag(w)[1..|TaskETag(w)| - 1];
    DecimalReadsBack(v);
    DecimalReadsBack(w);
  }

  lemma TagReads(header: string, x: int)
    requires 1 <= x <= INT64_MAX && Trim(Go, header) == TaskETag(x)
    ensures ParseIfMatch(header) == Some(x) && Trim(Go, header) != "*"
  {
    PrintedTag(x);
    ETagRoundTrip(x);
    assert TaskETag(x)[0] == '"';
  }

  lemma {:induction false} OneMember(s: string, quoted: bool)
    requires ',' !in s
    ensures Members(s, quoted) == [s]
  {
    if s != "" {
      OneMember(s[1..], quoted != (s[0] == '"'));
      assert s == [s[0]] + s[1..];
    }
  }

  lemma {:induction false} MembersShort(s: string, quoted: bool, m: string)
    requires m in Members(s, quoted)
    ensures |m| <= |s|
  {
    if s != "" {
      var rest := Members(s[1..], quoted != (s[0] == '"'));
      assert rest[0] in rest;
      MembersShort(s[1..], quoted != (s[0] == '"'), rest[0]);
      if m in rest {
        MembersShort(s[1..], quoted != (s[0] == '"'), m);
      }
    }
  }

  lemma {:induction false} TrimLeftShortens(s: string)
    ensures |TrimLeft(Go, s)| <= |s|
  {
    if s != "" && IsSpace(Go, s[0]) {
      TrimLeftShortens(s[1..]);
    }
  }

  function PowerOfTen(n: nat): (r: nat)
    ensures r >= 1
  {
    if n == 0 then 1 else 10 * PowerOfTen(n - 1)
  }

  lemma {:induction false} LargeIsLong(n: nat, k: nat)
    requires n >= PowerOfTen(k)
    ensures |Decimal(n)| > k
    decreases k
  {
    if k > 0 {
      LargeIsLong(n / 10, k - 1);
    }
  }

  /** No list names every version. */
  lemma SomeVersionUnnamed(header: string)
    ensures Trim(Go, header) != "*" ==> !StrongMatch(header, PowerOfTen(|header|))
  {
    LargeIsLong(PowerOfTen(|header|), |header|);
    forall m | m in Members(header, false)
      ensures Trim(Go, m) != TaskETag(PowerOfTen(|header|))
    {
      MembersShort(header, false, m);
      TrimLeftShortens(TrimRight(Go, m));
    }
  }

  /** The server agrees with strong comparison on every version exactly for a star and for a single
      tag it prints itself: a weak tag, an unquoted or signed number, text and lists let too much
      pass. */
  lemma AgreesWithStrongComparison(header: string)
    ensures (forall v :: v >= 1 ==> (LetsPass(header, v) <==> StrongMatch(header, v))) <==>
            Trim(Go, header) == "*" || exists x :: 1 <= x <= INT64_MAX && Trim(Go, header) == TaskETag(x)
  {
    if ParseIfMatch(header).None? {
      SomeVersionUnnamed(header);
      assert LetsPass(header, PowerOfTen(|header|));
      if x :| 1 <= x <= INT64_MAX && Trim(Go, header) == TaskETag(x) {
        TagReads(header, x);
      }
    } else {
      ReadHeaderMatches(header);
    }
  }

  /** A header that is read has one member, and passes for one version only. */
  lemma ReadHeaderMatches(header: string)
    requires ParseIfMatch(header).Some?
    ensures (forall v :: v >= 1 ==> (LetsPass(header, v) <==> StrongMatch(header, v))) <==>
            exists x :: 1 <= x <= INT64_MAX && Trim(Go, header) == TaskETag(x)
  {
    if ',' in header {
      OtherCharacterUnread(header, ',');
    }
    OneMember(header, false);
    var w := ParseIfMatch(header).value;
    ParseIfMatchMeaning(header, w);
    forall v | v >= 1
      ensures StrongMatch(header, v) <==> Trim(Go, header) == TaskETag(v)
    {
    }
    assert LetsPass(header, w);
    if x :| 1 <= x <= INT64_MAX && Trim(Go, header) == TaskETag(x) {
      TagReads(header, x);
      forall v | v >= 1
        ensures LetsPass(header, v) <==> StrongMatch(header, v)
      {
        if StrongMatch(header, v) {
          PrintedApart(v, x);
        }
      }
    }
  }

  lemma {:induction false} DigitsPass(digits: string, rest: string)
    requires AllDigits(digits)
    ensures Members(digits + "\"," + rest, true) == [digits + "\""] + Members(rest, false)
  {
    var s := digits + "\"," + rest;
    if digits == "" {
      assert s[1..] == "," + rest && ("," + rest)[1..] == rest;
      var more := Members("," + rest, false);
      assert more == [""] + Members(rest, false) && more[0] == "" && more[1..] == Members(rest, false);
      assert [s[0]] + more[0] == digits + "\"";
    } else {
      assert IsDigit(digits[0]) && s[1..] == digits[1..] + "\"," + rest;
      DigitsPass(digits[1..], rest);
      var more := Members(s[1..], true);
      assert more[0] == digits[1..] + "\"" && more[1..] == Members(rest, false);
      assert [s[0]] + more[0] == digits + "\"";
    }
  }

  lemma QuoteOpens(tail: string, first: string, others: seq<string>)
    requires Members(tail, true) == [first] + others
    ensures Members("\"" + tail, false) == ["\"" + first] + others
  {
    assert ("\"" + tail)[1..] == tail;
    assert Members(tail, true)[0] == first && Members(tail, true)[1..] == others;
  }

  lemma ListMembers(v: int, w: int)
    requires v >= 1 && w >= 1
    ensures Members(TaskETag(v) + "," + TaskETag(w), false) == [TaskETag(v), TaskETag(w)]
  {
    var digits, second := Decimal(v), TaskETag(w);
    DigitsPass(digits, second);
    NoComma(w);
    OneMember(second, false);
    QuoteOpens(digits + "\"," + second, digits + "\"", [second]);
    assert "\"" + (digits + "\"," + second) == TaskETag(v) + "," + second;
    assert "\"" + (digits + "\"") == TaskETag(v);
  }

  lemma ListUnread(v: int, w: int)
    ensures ParseIfMatch(TaskETag(v) + "," + TaskETag(w)) == None && Trim(Go, TaskETag(v) + "," + TaskETag(w)) != "*"
  {
    var header := TaskETag(v) + "," + TaskETag(w);
    assert header[|TaskETag(v)|] == ',';
    OtherCharacterUnread(header, ',');
    QuotedIsNoStar(header);
  }

  lemma QuotedIsNoStar(header: string)
    requires header != "" && header[0] == '"' && header[|header| - 1] == '"'
    ensures Trim(Go, header) == header != "*"
  {
  }

  /** A list of two of the server's tags matches exactly those two versions; yet the server does not read it,
      and lets every update pass. */
  lemma ListMatchesAny(v: int, w: int, x: int)
    requires v >= 1 && w >= 1 && x >= 1
    ensures StrongMatch(TaskETag(v) + "," + TaskETag(w), x) <==> x == v || x == w
    ensures LetsPass(TaskETag(v) + "," + TaskETag(w), x)
  {
    var members := [TaskETag(v), TaskETag(w)];
    ListMembers(v, w);
    ListUnread(v, w);
    PrintedTag(v);
    PrintedTag(w);
    if TaskETag(x) == TaskETag(v) {
      PrintedApart(x, v);
    }
    if TaskETag(x) == TaskETag(w) {
      PrintedApart(x, w);
    }
    assert members[0] in members && members[1] in members;
  }

  lemma NoComma(v: int)
    requires v >= 1
    ensures ',' !in TaskETag(v)
  {
    var s := Decimal(v);
    assert forall i :: 0 <= i < |s| ==> IsDigit(s[i]);
  }

  // --- headers that are not read ---

  predicate InVersionTag(c: char) {
    IsDigit(c) || c == '"' || c == 'W' || c == '/' || c == '+'
  }

  lemma {:induction false} TrimLeftKeeps(s: string, c: char)
    requires c in s && !IsSpace(Go, c)
    ensures c in TrimLeft(Go, s)
  {
    if IsSpace(Go, s[0]) {
      assert s == [s[0]] + s[1..];
      TrimLeftKeeps(s[1..], c);
    }
  }

  lemma {:induction false} TrimRightKeeps(s: string, c: char)
    requires c in s && !IsSpace(Go, c)
    ensures c in TrimRight(Go, s)
  {
    if IsSpace(Go, s[|s| - 1]) {
      assert s == s[..|s| - 1] + [s[|s| - 1]];
      TrimRightKeeps(s[..|s| - 1], c);
    }
  }

  lemma {:induction false} TrimQuotesKeepsOther(s: string, c: char)
    requires c in s && c != '"'
    ensures c in TrimQuotes(s)
    decreases |s|
  {
    if s[0] == '"' {
      assert s == [s[0]] + s[1..];
      TrimQuotesKeepsOther(s[1..], c);
    } else if s[|s| - 1] == '"' {
      assert s == s[..|s| - 1] + [s[|s| - 1]];
      TrimQuotesKeepsOther(s[..|s| - 1], c);
    }
  }

  lemma {:induction false} DigitsOnly(digits: string, c: char)
    requires AllDigits(digits) && c in digits
    ensures IsDigit(c)
  {
  }

  /** A header with any other character in it, the comma of a list for one, is no precondition. */
  lemma OtherCharacterUnread(header: string, c: char)
    requires c in header && !IsSpace(Go, c) && !InVersionTag(c)
    ensures ParseIfMatch(header) == None
  {
    TrimRightKeeps(header, c);
    TrimLeftKeeps(TrimRight(Go, header), c);
    var value := Trim(Go, header);
    var inner := if StartsWith(value, "W/") then value[2..] else value;
    if StartsWith(value, "W/") {
      assert value == value[..2] + inner && value[..2] == "W/";
      assert c !in "W/";
    }
    assert c in inner;
    TrimQuotesKeepsOther(inner, c);
    if ParseIfMatch(header).Some? {
      ReadCharacters(header, c);
    }
  }

  lemma ReadCharacters(header: string, c: char)
    requires ParseIfMatch(header).Some? && c in OpaqueTag(header)
    ensures IsDigit(c) || c == '+'
  {
    var v := ParseIfMatch(header).value;
    ParseIfMatchMeaning(header, v);
    var digits :| digits != "" && AllDigits(digits) && NumeralValue(digits) == v &&
      (OpaqueTag(header) == digits || OpaqueTag(header) == "+" + digits);
    if c in digits {
      DigitsOnly(digits, c);
    }
  }
}
