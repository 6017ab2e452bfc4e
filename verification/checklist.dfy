/** Node 1 of the pipeline (`generate_checklist`): turning the language model's
    free-text reply into an acknowledgement message, a list of
    `{keyword, category}` records and the comma-joined checklist string. */
module Checklist {
  import opened Wrappers
  import opened Text

  /** The marker opening as the extraction regex spells it: a space follows the colon. */
  const MarkerOpen: string := "[추천 리스트: "

  /** The token the acknowledgement is cut at: no space after the colon. */
  const MessageCut: string := "[추천 리스트:"

  /** One accepted checklist entry. */
  datatype Keyword = Keyword(keyword: string, category: string)

  /** A match of the marker regex: where it starts and what its group 1 captured. */
  datatype MarkerMatch = MarkerMatch(start: nat, body: string)

  /** What node 1 hands to the state: the acknowledgement, the joined names and the entries. */
  datatype Parsed = Parsed(message: string, checklist: string, keywords: seq<Keyword>)

  // ---------------------------------------------------------------- the marker regex

  /** The marker pattern can match at `i`: the opening is there and some `]`
      follows it. The body is `.*?` under DOTALL, so any character, line breaks
      included, may stand between them. */
  predicate MatchesAt(s: string, i: int) {
    OccursAt(s, MarkerOpen, i) && ']' in s[i + |MarkerOpen|..]
  }

  /** The match `m` spells out the text at `m.start`: the opening, the body,
      then a `]`, with no `]` inside the body (the lazy `.*?` stops at the
      first one). */
  ghost predicate Captures(s: string, m: MarkerMatch) {
    var from := m.start + |MarkerOpen|;
    && from + |m.body| < |s|
    && s[from..from + |m.body|] == m.body
    && s[from + |m.body|] == ']'
    && ']' !in m.body
  }

  /** `m` is the match a leftmost regex search returns: it starts at the first
      position where the pattern can match. */
  ghost predicate IsSearchResult(s: string, m: MarkerMatch) {
    && MatchesAt(s, m.start)
    && (forall q :: 0 <= q < m.start ==> !MatchesAt(s, q))
    && Captures(s, m)
  }

  /** The leftmost match at or after position `k`. */
  function SearchFrom(s: string, k: nat): (r: Option<MarkerMatch>)
    requires k <= |s|
    ensures r.Some? ==> k <= r.value.start && MatchesAt(s, r.value.start) && Captures(s, r.value)
    ensures r.Some? ==> forall q :: k <= q < r.value.start ==> !MatchesAt(s, q)
    ensures r.None? ==> forall q :: k <= q <= |s| ==> !MatchesAt(s, q)
    decreases |s| - k
  {
    if MatchesAt(s, k) then
      var from := k + |MarkerOpen|;
      var e := FirstIndex(s[from..], ']');
      assert s[from..from + e] == s[from..][..e];
      Some(MarkerMatch(k, s[from..from + e]))
    else if k == |s| then None
    else SearchFrom(s, k + 1)
  }

  /** `re.search(r"\[추천 리스트: (.*?)\]", s, re.DOTALL)`. */
  function SearchMarker(s: string): (r: Option<MarkerMatch>)
    ensures r.Some? ==> IsSearchResult(s, r.value)
    ensures r.None? <==> forall q :: 0 <= q <= |s| ==> !MatchesAt(s, q)
  {
    SearchFrom(s, 0)
  }

  /** `match.group(1) if match else ""`. */
  function MarkerBody(s: string): string {
    match SearchMarker(s)
    case Some(m) => m.body
    case None => ""
  }

  /** Without the opening anywhere in the reply the regex cannot match. */
  lemma NoOpeningNoMatch(s: string)
    requires Find(s, MarkerOpen).None?
    ensures SearchMarker(s).None?
  {
  }

  /** The search is decided by the FIRST opening in the reply: if a `]` follows
      it, the match starts there and the body runs to the first such `]`;
      otherwise there is no match at all, whatever follows. */
  lemma MarkerAtFirstOpening(s: string, f: nat)
    requires Find(s, MarkerOpen) == Some(f)
    ensures SearchMarker(s).Some? <==> ']' in s[f + |MarkerOpen|..]
    ensures SearchMarker(s).Some? ==>
      SearchMarker(s).value.start == f &&
      SearchMarker(s).value.body == s[f + |MarkerOpen|..f + |MarkerOpen| + FirstIndex(s[f + |MarkerOpen|..], ']')]
  {
    if ']' in s[f + |MarkerOpen|..] {
      SearchStartsAtFirstOpening(s, f);
      CapturedBody(s, SearchMarker(s).value);
    } else {
      NoMatchAfterOpening(s, f);
    }
  }

  lemma SearchStartsAtFirstOpening(s: string, f: nat)
    requires Find(s, MarkerOpen) == Some(f)
    requires ']' in s[f + |MarkerOpen|..]
    ensures SearchMarker(s).Some? && SearchMarker(s).value.start == f
  {
    assert MatchesAt(s, f);
  }

  /** What the lazy group captures: the text from the end of the opening up
      to the first `]`. */
  lemma CapturedBody(s: string, m: MarkerMatch)
    requires Captures(s, m)
    ensures var from := m.start + |MarkerOpen|;
      ']' in s[from..] && m.body == s[from..from + FirstIndex(s[from..], ']')]
  {
    var from := m.start + |MarkerOpen|;
    var t := s[from..];
    assert t[..|m.body|] == m.body;
    assert t[|m.body|] == ']';
    FirstIndexUnique(t, ']', |m.body|);
  }

  lemma NoMatchAfterOpening(s: string, f: nat)
    requires Find(s, MarkerOpen) == Some(f)
    requires ']' !in s[f + |MarkerOpen|..]
    ensures SearchMarker(s).None?
  {
    assert forall q :: 0 <= q <= |s| ==> !MatchesAt(s, q);
  }

  // ---------------------------------------------------------------- the message

  /** `full_response.split("[추천 리스트:")[0].strip()`. */
  function Message(s: string): (r: string)
    ensures IsTrimmed(r)
  {
    Strip(Before(s, MessageCut))
  }

  /** The cut that yields the message never lies after the regex match: the
      message is taken from text before the marker. */
  lemma MessageCutBeforeMarker(s: string)
    requires SearchMarker(s).Some?
    ensures |Before(s, MessageCut)| <= SearchMarker(s).value.start
  {
    var m := SearchMarker(s).value;
    assert s[m.start..m.start + |MessageCut|] == s[m.start..m.start + |MarkerOpen|][..|MessageCut|];
    assert OccursAt(s, MessageCut, m.start);
  }

  // ---------------------------------------------------------------- the entries

  /** One comma-separated segment: dropped when it has no `|`, otherwise split
      on its first `|` with both sides stripped. */
  function ParseSegment(part: string): Option<Keyword> {
    if '|' in part then
      var i := FirstIndex(part, '|');
      Some(Keyword(Strip(part[..i]), Strip(part[i + 1..])))
    else None
  }

  /** A segment is kept exactly when it has a `|`; the name then has no `|`
      and both sides are trimmed. */
  lemma ParseSegmentSpec(part: string)
    ensures ParseSegment(part).None? <==> '|' !in part
    ensures ParseSegment(part).Some? ==> '|' !in ParseSegment(part).value.keyword
    ensures ParseSegment(part).Some? ==>
      IsTrimmed(ParseSegment(part).value.keyword) && IsTrimmed(ParseSegment(part).value.category)
  {
    if '|' in part {
      var i := FirstIndex(part, '|');
      StripKeepsChars(part[..i], '|');
    }
  }

  /** The reference reading of a segment: text without `|`, a `|`, then
      anything (further `|` included) gives the two sides, stripped. */
  lemma ParseSegmentOfPair(name: string, category: string)
    requires '|' !in name
    ensures ParseSegment(name + "|" + category) == Some(Keyword(Strip(name), Strip(category)))
  {
    var part := name + "|" + category;
    FirstIndexAfter(name, '|', category);
    assert part[..|name|] == name;
    assert part[|name| + 1..] == category;
  }

  /** The segments, left to right, through a segment parser, keeping what it
      accepts and dropping the rest. */
  function Keep(parts: seq<string>, parse: string -> Option<Keyword>): (r: seq<Keyword>)
    ensures |r| <= |parts|
  {
    if |parts| == 0 then []
    else
      var head := match parse(parts[0]) case Some(k) => [k] case None => [];
      head + Keep(parts[1..], parse)
  }

  /** Keeping distributes over concatenation of segment lists: survivors keep
      their relative order and nothing is merged or de-duplicated. */
  lemma {:induction false} KeepAppend(a: seq<string>, b: seq<string>, parse: string -> Option<Keyword>)
    ensures Keep(a + b, parse) == Keep(a, parse) + Keep(b, parse)
  {
    if |a| > 0 {
      assert (a + b)[1..] == a[1..] + b;
      KeepAppend(a[1..], b, parse);
    } else {
      assert a + b == b;
    }
  }

  /** Each kept entry is what the parser made of some segment. */
  lemma {:induction false} KeepFromSegments(parts: seq<string>, parse: string -> Option<Keyword>, j: nat)
    requires j < |Keep(parts, parse)|
    ensures exists k :: 0 <= k < |parts| && parse(parts[k]) == Some(Keep(parts, parse)[j])
  {
    var head := match parse(parts[0]) case Some(k) => [k] case None => [];
    if j < |head| {
      assert parse(parts[0]) == Some(Keep(parts, parse)[j]);
    } else {
      KeepFromSegments(parts[1..], parse, j - |head|);
      var k :| 0 <= k < |parts[1..]| && parse(parts[1..][k]) == Some(Keep(parts[1..], parse)[j - |head|]);
      assert parts[k + 1] == parts[1..][k];
    }
  }

  /** The entry a segment yields sits right after the entries of the segments
      before it: kept entries appear in segment order. */
  lemma KeepSegmentAt(parts: seq<string>, parse: string -> Option<Keyword>, k: nat)
    requires k < |parts| && parse(parts[k]).Some?
    ensures |Keep(parts[..k], parse)| < |Keep(parts, parse)|
    ensures Keep(parts, parse)[|Keep(parts[..k], parse)|] == parse(parts[k]).value
  {
    assert parts == parts[..k] + ([parts[k]] + parts[k + 1..]);
    KeepAppend(parts[..k], [parts[k]] + parts[k + 1..], parse);
    KeepAppend([parts[k]], parts[k + 1..], parse);
    assert [parts[k]][1..] == [];
  }

  /** Every segment, left to right, with the segments that lack `|` dropped. */
  function ParseParts(parts: seq<string>): seq<Keyword> {
    Keep(parts, ParseSegment)
  }

  /** `checklist_raw.split(",")` followed by the per-segment parse. */
  function ParseBody(body: string): seq<Keyword> {
    ParseParts(Split(body, ','))
  }

  /** An entry never contains a comma: commas only ever separate segments. */
  lemma ParseBodyNoComma(body: string, j: nat)
    requires j < |ParseBody(body)|
    ensures IsTrimmed(ParseBody(body)[j].keyword)
    ensures ',' !in ParseBody(body)[j].keyword
    ensures ',' !in ParseBody(body)[j].category
  {
    var parts := Split(body, ',');
    var kw := ParseBody(body)[j];
    KeepFromSegments(parts, ParseSegment, j);
    var k :| 0 <= k < |parts| && ParseSegment(parts[k]) == Some(kw);
    SplitPiecesFree(body, ',');
    SegmentNoComma(parts[k]);
  }

  /** A comma-free segment yields a comma-free entry with a trimmed name. */
  lemma SegmentNoComma(part: string)
    requires ',' !in part && ParseSegment(part).Some?
    ensures IsTrimmed(ParseSegment(part).value.keyword)
    ensures ',' !in ParseSegment(part).value.keyword
    ensures ',' !in ParseSegment(part).value.category
  {
    ParseSegmentSpec(part);
    var i := FirstIndex(part, '|');
    StripKeepsChars(part[..i], ',');
    StripKeepsChars(part[i + 1..], ',');
  }

  /** The item names of a list of entries, in order. */
  function Names(ks: seq<Keyword>): seq<string> {
    seq(|ks|, j requires 0 <= j < |ks| => ks[j].keyword)
  }

  /** The parse loop as the source writes it: one pass over the segments,
      appending to the name list and the entry list side by side. */
  method CollectEntries(parts: seq<string>) returns (checklist: seq<string>, keywords: seq<Keyword>)
    ensures keywords == ParseParts(parts)
    ensures |checklist| == |keywords|
    ensures forall j :: 0 <= j < |keywords| ==> checklist[j] == keywords[j].keyword
  {
    checklist, keywords := [], [];
    var n := 0;
    while n < |parts|
      invariant n <= |parts|
      invariant keywords == Keep(parts[..n], ParseSegment)
      invariant |checklist| == |keywords|
      invariant forall j :: 0 <= j < |keywords| ==> checklist[j] == keywords[j].keyword
    {
      var segment := ParseSegment(parts[n]);
      KeepStep(parts, n, ParseSegment);
      if segment.Some? {
        checklist := checklist + [segment.value.keyword];
        keywords := keywords + [segment.value];
      }
      n := n + 1;
    }
    assert parts[..n] == parts;
  }

  /** One more segment extends what is kept by at most that segment's entry. */
  lemma KeepStep(parts: seq<string>, n: nat, parse: string -> Option<Keyword>)
    requires n < |parts|
    ensures Keep(parts[..n + 1], parse)
         == Keep(parts[..n], parse) + (if parse(parts[n]).Some? then [parse(parts[n]).value] else [])
  {
    KeepAppend(parts[..n], [parts[n]], parse);
    assert parts[..n + 1] == parts[..n] + [parts[n]];
    assert [parts[n]][1..] == [];
  }

  /** Node 1's parse of the model's reply (everything after `llm.invoke`). */
  function ParseReply(reply: string): Parsed {
    var s := Strip(reply);
    var keywords := ParseBody(MarkerBody(s));
    Parsed(Message(s), Join(Names(keywords), ", "), keywords)
  }

  // ---------------------------------------------------------------- properties of the parse

  /** Without a matching marker nothing is extracted: no entries, an empty
      checklist, and the message is the stripped reply up to the cut token. */
  lemma NoMarkerNoEntries(reply: string)
    requires SearchMarker(Strip(reply)).None?
    ensures ParseReply(reply).keywords == []
    ensures ParseReply(reply).checklist == ""
    ensures ParseReply(reply).message == Strip(Before(Strip(reply), MessageCut))
  {
    assert Split("", ',') == [""];
    assert ParseParts([""]) == [];
  }

  /** When the cut token is absent, the message is the whole stripped reply. */
  lemma NoCutWholeMessage(reply: string)
    requires Find(Strip(reply), MessageCut).None?
    ensures ParseReply(reply).message == Strip(reply)
  {
    StripIdempotent(reply);
  }

  /** The names joined with ", " into `checklist`, stripped side by side. */
  function Spaced(names: seq<string>): (r: seq<string>)
    ensures |r| == |names|
  {
    if |names| == 0 then [] else [" " + names[0]] + Spaced(names[1..])
  }

  lemma {:induction false} JoinCommaSpace(names: seq<string>)
    requires |names| >= 1
    ensures Join(names, ", ") == Join([names[0]] + Spaced(names[1..]), ",")
  {
    if |names| > 1 {
      JoinCommaSpace(names[1..]);
      var rest := [names[1]] + Spaced(names[2..]);
      assert Spaced(names[1..]) == [" " + names[1]] + Spaced(names[2..]);
      assert ([names[0]] + Spaced(names[1..]))[1..] == Spaced(names[1..]);
      assert Join(Spaced(names[1..]), ",") == " " + Join(rest, ",") by {
        JoinSpacedHead(names[1..]);
      }
    }
  }

  lemma {:induction false} JoinSpacedHead(names: seq<string>)
    requires |names| >= 1
    ensures Join(Spaced(names), ",") == " " + Join([names[0]] + Spaced(names[1..]), ",")
  {
    assert Spaced(names) == [" " + names[0]] + Spaced(names[1..]);
    if |names| > 1 {
      assert Spaced(names)[1..] == Spaced(names[1..]);
      assert ([names[0]] + Spaced(names[1..]))[1..] == Spaced(names[1..]);
    }
  }

  /** Joining stripped, comma-free names with ", " can be undone: split on
      `,` and strip each piece. */
  lemma JoinedNamesRecover(names: seq<string>)
    requires |names| >= 1
    requires forall k :: 0 <= k < |names| ==> IsTrimmed(names[k]) && ',' !in names[k]
    ensures var pieces := Split(Join(names, ", "), ',');
      |pieces| == |names| && forall j :: 0 <= j < |pieces| ==> Strip(pieces[j]) == names[j]
  {
    var spaced := [names[0]] + Spaced(names[1..]);
    JoinCommaSpace(names);
    forall k | 0 <= k < |spaced| ensures ',' !in spaced[k] && Strip(spaced[k]) == names[k] {
      StripTrimmed(names[k]);
      StripSpaced(names[k]);
      if k > 0 {
        SpacedAt(names[1..], k - 1);
      }
    }
    SplitJoin(spaced, ',');
  }

  /** The checklist string records the accepted names faithfully whenever at
      least one entry was accepted: splitting it on `,` and stripping each piece
      gives back exactly the names, in order. (With no entries it is `""`,
      which an entry with an empty name also produces.) */
  lemma ChecklistRecoversNames(reply: string)
    ensures var p := ParseReply(reply);
      var pieces := Split(p.checklist, ',');
      |p.keywords| >= 1 ==>
        |pieces| == |p.keywords| && forall j :: 0 <= j < |pieces| ==> Strip(pieces[j]) == p.keywords[j].keyword
  {
    var p := ParseReply(reply);
    if |p.keywords| >= 1 {
      var body := MarkerBody(Strip(reply));
      var names := Names(p.keywords);
      forall k | 0 <= k < |names| ensures IsTrimmed(names[k]) && ',' !in names[k] {
        ParseBodyNoComma(body, k);
      }
      JoinedNamesRecover(names);
    }
  }

  lemma {:induction false} SpacedAt(names: seq<string>, k: nat)
    requires k < |names|
    ensures Spaced(names)[k] == " " + names[k]
  {
    if k > 0 {
      SpacedAt(names[1..], k - 1);
    }
  }

  // ---------------------------------------------------------------- whole replies

  /** The two tokens: the marker opening is the cut token followed by a
      space, and each starts with the only `[` it contains. */
  lemma TokenShapes()
    ensures MarkerOpen == MessageCut + " "
    ensures MessageCut[0] == '[' && '[' !in MessageCut[1..] && '[' !in MarkerOpen[1..]
  {
  }

  /** Wherever the marker opening occurs, the cut token occurs. */
  lemma CutInOpening(s: string, q: nat)
    requires OccursAt(s, MarkerOpen, q)
    ensures OccursAt(s, MessageCut, q)
  {
    assert s[q..q + |MessageCut|] == s[q..q + |MarkerOpen|][..|MessageCut|];
  }

  /** Text without the cut token has no marker opening either. */
  lemma NoCutNoOpening(s: string)
    requires Find(s, MessageCut).None?
    ensures Find(s, MarkerOpen).None?
  {
    forall j | 0 <= j <= |s| ensures !OccursAt(s, MarkerOpen, j) {
      if OccursAt(s, MarkerOpen, j) {
        CutInOpening(s, j);
      }
    }
  }

  /** The message is the stripped text before the first cut token. */
  lemma MessageAtCut(s: string, i: nat)
    requires Find(s, MessageCut) == Some(i)
    ensures Message(s) == Strip(s[..i])
  {
  }

  /** Prose in which the cut token does not occur, followed by the token,
      becomes the message. */
  lemma MessageOfPrefixed(pre: string, rest: string)
    requires Find(pre, MessageCut).None?
    ensures Message(pre + MessageCut + rest) == Strip(pre)
  {
    var s := pre + MessageCut + rest;
    TokenShapes();
    FindAfterPrefix(pre, MessageCut, rest);
    MessageAtCut(s, |pre|);
    assert s[..|pre|] == pre;
  }

  /** After prose in which the cut token does not occur, a marker whose body
      has no `]` is the match, and its body is what the regex captures. */
  lemma BodyOfPrefixed(pre: string, body: string, post: string)
    requires Find(pre, MessageCut).None? && ']' !in body
    ensures MarkerBody(pre + MarkerOpen + (body + "]" + post)) == body
  {
    var rest := body + "]" + post;
    var s := pre + MarkerOpen + rest;
    TokenShapes();
    NoCutNoOpening(pre);
    FindAfterPrefix(pre, MarkerOpen, rest);
    var from := |pre| + |MarkerOpen|;
    assert s[from..] == rest;
    assert rest == body + [']'] + post;
    FirstIndexAfter(body, ']', post);
    MarkerAtFirstOpening(s, |pre|);
    assert rest[..|body|] == body;
  }

  /** A trimmed reply made of prose in which the cut token does not occur,
      the marker, and any trailing text parses to the prose (stripped) as the
      message and to the entries of the marker body. */
  lemma ParseMarkedReply(pre: string, body: string, post: string)
    requires Find(pre, MessageCut).None? && ']' !in body
    requires IsTrimmed(pre + MarkerOpen + (body + "]" + post))
    ensures var p := ParseReply(pre + MarkerOpen + (body + "]" + post));
      p.message == Strip(pre) && p.keywords == ParseBody(body)
  {
    var rest := body + "]" + post;
    var s := pre + MarkerOpen + rest;
    TokenShapes();
    assert s == pre + MessageCut + (" " + rest);
    StripTrimmed(s);
    BodyOfPrefixed(pre, body, post);
    MessageOfPrefixed(pre, " " + rest);
  }

  /** A reply whose cut token is NOT followed by a space: the message still
      stops at the token, but the regex never matches, so nothing is
      extracted. The two tokens disagree on exactly these replies. */
  lemma CutWithoutSpaceExtractsNothing(pre: string, rest: string)
    requires Find(pre, MessageCut).None? && Find(rest, MarkerOpen).None?
    requires |rest| == 0 || rest[0] != ' '
    requires IsTrimmed(pre + MessageCut + rest)
    ensures ParseReply(pre + MessageCut + rest).message == Strip(pre)
    ensures ParseReply(pre + MessageCut + rest).keywords == []
  {
    var s := pre + MessageCut + rest;
    NoOpeningAfterCut(pre, rest);
    StripTrimmed(s);
    MessageOfPrefixed(pre, rest);
    NoMarkerNoEntries(s);
  }

  /** The marker opening occurs nowhere in such a reply: not in the prose,
      not across its seam with the cut token, not at the cut token (no space
      follows), not inside the token, and not in the rest. */
  lemma NoOpeningAfterCut(pre: string, rest: string)
    requires Find(pre, MessageCut).None? && Find(rest, MarkerOpen).None?
    requires |rest| == 0 || rest[0] != ' '
    ensures forall q :: 0 <= q <= |pre + MessageCut + rest| ==> !MatchesAt(pre + MessageCut + rest, q)
  {
    var s := pre + MessageCut + rest;
    var c := |pre| + |MessageCut|;
    TokenShapes();
    assert s == pre + (MessageCut + rest) == (pre + MessageCut) + rest;
    forall q | 0 <= q <= |s| ensures !OccursAt(s, MarkerOpen, q) {
      if q < |pre| {
        if q + |MarkerOpen| <= |pre| {
          if OccursAt(s, MarkerOpen, q) {
            OccursInLeft(pre, MessageCut + rest, MarkerOpen, q);
            CutInOpening(pre, q);
          }
        } else {
          NoStraddle(pre, MessageCut + rest, MarkerOpen, q);
        }
      } else if q == |pre| {
        if q + |MarkerOpen| <= |s| {
          assert s[q..q + |MarkerOpen|][|MessageCut|] == rest[0];
        }
      } else if q < c {
        assert s[q] == MessageCut[1..][q - |pre| - 1];
      } else if OccursAt(s, MarkerOpen, q) {
        OccursInRight(pre + MessageCut, rest, MarkerOpen, q);
      }
    }
  }

  /** A name that is all whitespace is kept as the empty name. */
  lemma BlankNameKept(pad: string, category: string)
    requires forall k :: 0 <= k < |pad| ==> IsSpace(pad[k])
    ensures ParseSegment(pad + "|" + category) == Some(Keyword("", Strip(category)))
  {
    ParseSegmentOfPair(pad, category);
    assert StripsTo(pad, |pad|, |pad|);
    StripUnique(pad, |pad|, |pad|);
  }

  /** Parsing a body assembled from comma-free segments parses each segment in turn. */
  lemma ParseBodyOfJoined(segments: seq<string>)
    requires |segments| >= 1
    requires forall k :: 0 <= k < |segments| ==> ',' !in segments[k]
    ensures ParseBody(Join(segments, ",")) == ParseParts(segments)
  {
    SplitJoin(segments, ',');
  }
  /** One segment on its own is kept exactly when the parser accepts it. */
  lemma KeepOne(part: string, parse: string -> Option<Keyword>)
    ensures Keep([part], parse) == (if parse(part).Some? then [parse(part).value] else [])
  {
    assert [part][1..] == [];
  }
  /** A segment without `|` is dropped silently: the entries are those of the
      other segments. */
  lemma SegmentWithoutBarDropped(parts: seq<string>, k: nat)
    requires k < |parts| && '|' !in parts[k]
    ensures ParseParts(parts) == ParseParts(parts[..k] + parts[k + 1..])
  {
    assert parts == parts[..k] + ([parts[k]] + parts[k + 1..]);
    KeepAppend(parts[..k], [parts[k]] + parts[k + 1..], ParseSegment);
    KeepAppend([parts[k]], parts[k + 1..], ParseSegment);
    KeepOne(parts[k], ParseSegment);
    KeepAppend(parts[..k], parts[k + 1..], ParseSegment);
  }


  /** Two segments are parsed one after the other. */
  lemma KeepTwo(a: string, b: string, parse: string -> Option<Keyword>)
    ensures parse(a).Some? && parse(b).Some? ==> Keep([a, b], parse) == [parse(a).value, parse(b).value]
  {
    assert [a, b] == [a] + [b];
    KeepAppend([a], [b], parse);
    KeepOne(a, parse);
    KeepOne(b, parse);
  }

  /** The same segment twice gives two equal entries: nothing is de-duplicated. */
  lemma DuplicateSegmentsKept(segment: string)
    requires '|' in segment && ',' !in segment
    ensures ParseBody(segment + "," + segment) == [ParseSegment(segment).value, ParseSegment(segment).value]
  {
    var body := segment + "," + segment;
    assert Join([segment, segment], ",") == body by {
      assert [segment, segment][1..] == [segment];
    }
    ParseBodyOfJoined([segment, segment]);
    ParseSegmentSpec(segment);
    KeepTwo(segment, segment, ParseSegment);
  }

  /** A body of two well-formed segments, written `a|x, b|y` with trimmed
      names and categories: both entries, in order, and the checklist string
      `a, b`. */
  lemma TwoEntries(a: string, x: string, b: string, y: string)
    requires '|' !in a && '|' !in b
    requires ',' !in a && ',' !in x && ',' !in b && ',' !in y
    requires IsTrimmed(a) && IsTrimmed(x) && IsTrimmed(b) && IsTrimmed(y)
    ensures ParseBody(a + "|" + x + ", " + b + "|" + y) == [Keyword(a, x), Keyword(b, y)]
    ensures Join(Names(ParseBody(a + "|" + x + ", " + b + "|" + y)), ", ") == a + ", " + b
  {
    var first, second := a + "|" + x, " " + b + "|" + y;
    assert ParseBody(a + "|" + x + ", " + b + "|" + y) == [Keyword(a, x), Keyword(b, y)] by {
      assert Join([first, second], ",") == a + "|" + x + ", " + b + "|" + y by {
        assert [first, second][1..] == [second];
      }
      ParseBodyOfJoined([first, second]);
      SegmentPair(a, x, b, y);
    }
    var names := Names([Keyword(a, x), Keyword(b, y)]);
    assert names == [a, b];
    assert names[1..] == [b];
  }

  /** The segments `a|x` and ` b|y` (the second with the space `", "` leaves)
      give the entries `{a,x}` and `{b,y}`. */
  lemma SegmentPair(a: string, x: string, b: string, y: string)
    requires '|' !in a && '|' !in b
    requires IsTrimmed(a) && IsTrimmed(x) && IsTrimmed(b) && IsTrimmed(y)
    ensures ParseParts([a + "|" + x, " " + b + "|" + y]) == [Keyword(a, x), Keyword(b, y)]
  {
    ParseSegmentOfPair(a, x);
    ParseSegmentOfPair(" " + b, y);
    StripTrimmed(a);
    StripTrimmed(x);
    StripTrimmed(y);
    StripSpaced(b);
    KeepTwo(a + "|" + x, " " + b + "|" + y, ParseSegment);
  }
}
