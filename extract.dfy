/** `extract_data` of scripts/extract_from_html.py: find the first
    `<script ... id="dashboard-data" ...>` block of an HTML document, take its
    body up to the next `</script>`, strip it and read it as JSON.

    The regular expression
      <script[^>]*id=["\\']dashboard-data["\\'][^>]*>(.*?)</script>
    searched with DOTALL and IGNORECASE is written out as an explicit scan.
    No literal of the pattern contains `>`, so at a given start the opening
    tag always ends at the first `>` after `<script`, and the lazy body ends
    at the first `</script>` after that: a start admits at most one match. */
module Extract {
  import opened Wrappers
  import opened Text

  /** A JSON value as `json.loads` returns it (integers only). */
  datatype Json =
    | JNull
    | JBool(b: bool)
    | JNumber(n: int)
    | JString(s: string)
    | JArray(items: seq<Json>)
    | JObject(fields: map<string, Json>)

  const OpenTag: string := "<script"
  const CloseTag: string := "</script>"
  const AttrName: string := "id="
  const MarkerValue: string := "dashboard-data"
  /** `id=`, a quote, `dashboard-data`, a quote. */
  const MarkerLength: nat := 19

  // ---------------------------------------------------------------------------
  // Matching pattern text under re.IGNORECASE
  // ---------------------------------------------------------------------------

  /** Text character `c` matches pattern character `p` (a lower-case ASCII
      letter or punctuation). Besides the ASCII case pairs, Python's
      IGNORECASE lets U+0130 and U+0131 match `i`, U+017F match `s` and
      U+212A match `k`. */
  predicate CharMatches(c: char, p: char)
  {
    LowerChar(c) == p
    || (p == 'i' && (c == '\U{130}' || c == '\U{131}'))
    || (p == 's' && c == '\U{17F}')
    || (p == 'k' && c == '\U{212A}')
  }

  /** `pat` matches `text` at position `i`, ignoring case. */
  predicate MatchesAt(text: string, i: nat, pat: string)
  {
    i + |pat| <= |text| && forall k :: 0 <= k < |pat| ==> CharMatches(text[i + k], pat[k])
  }

  /** The character class `["\\']`. */
  predicate IsQuote(c: char)
  {
    c == '"' || c == '\'' || c == '\\'
  }

  /** `id=["\\']dashboard-data["\\']` at position `i`; the two quotes need not
      be the same character. */
  predicate MarkerAt(text: string, i: nat)
  {
    && i + MarkerLength <= |text|
    && MatchesAt(text, i, AttrName)
    && IsQuote(text[i + 3])
    && MatchesAt(text, i + 4, MarkerValue)
    && IsQuote(text[i + 18])
  }

  // ---------------------------------------------------------------------------
  // What the regular expression matches
  // ---------------------------------------------------------------------------

  /** A match: the opening tag starts at `start`, the body is
      `html[bodyStart..bodyEnd]` and the closing tag starts at `bodyEnd`. */
  datatype Block = Block(start: nat, bodyStart: nat, bodyEnd: nat)

  /** `<script[^>]*id=["\\']dashboard-data["\\'][^>]*>` spans `html[start..e + 1]`. */
  ghost predicate TagEndsAt(html: string, start: nat, e: nat)
  {
    && MatchesAt(html, start, OpenTag)
    && start + |OpenTag| <= e < |html|
    && html[e] == '>'
    && (forall k :: start + |OpenTag| <= k < e ==> html[k] != '>')
    && (exists i :: start + |OpenTag| <= i && i + MarkerLength <= e && MarkerAt(html, i))
  }

  /** `(.*?)</script>`: the body `html[bodyStart..bodyEnd]` runs up to the
      first closing tag. */
  ghost predicate BodyEndsAt(html: string, bodyStart: nat, bodyEnd: nat)
  {
    && bodyStart <= bodyEnd
    && MatchesAt(html, bodyEnd, CloseTag)
    && forall k :: bodyStart <= k < bodyEnd ==> !MatchesAt(html, k, CloseTag)
  }

  /** The whole pattern matches as `b`: the tag runs to the first `>` after
      `<script` and the body to the first closing tag. */
  ghost predicate BlockAt(html: string, b: Block)
  {
    b.bodyStart > 0 && TagEndsAt(html, b.start, b.bodyStart - 1) && BodyEndsAt(html, b.bodyStart, b.bodyEnd)
  }

  /** The pattern matches at position `s`. */
  ghost predicate MatchAt(html: string, s: nat)
  {
    exists bodyStart: nat, bodyEnd: nat :: BlockAt(html, Block(s, bodyStart, bodyEnd))
  }

  /** A start admits at most one match, so the captured body is well defined. */
  lemma BlockAtUnique(html: string, b1: Block, b2: Block)
    requires BlockAt(html, b1) && BlockAt(html, b2) && b1.start == b2.start
    ensures b1 == b2
  {
  }

  // ---------------------------------------------------------------------------
  // The scan
  // ---------------------------------------------------------------------------

  /** The first position at or after `from` where `pat` matches. */
  function FindFrom(text: string, from: nat, pat: string): (r: Option<nat>)
    ensures r.Some? ==> from <= r.value && MatchesAt(text, r.value, pat)
    ensures r.Some? ==> forall k :: from <= k < r.value ==> !MatchesAt(text, k, pat)
    ensures r.None? ==> forall k :: from <= k ==> !MatchesAt(text, k, pat)
    decreases |text| - from
  {
    if from + |pat| > |text| then None
    else if MatchesAt(text, from, pat) then Some(from)
    else FindFrom(text, from + 1, pat)
  }

  /** The first position at or after `from` holding `c`. */
  function FindChar(text: string, from: nat, c: char): (r: Option<nat>)
    ensures r.Some? ==> from <= r.value < |text| && text[r.value] == c
    ensures r.Some? ==> forall k :: from <= k < r.value ==> text[k] != c
    ensures r.None? ==> forall k :: from <= k < |text| ==> text[k] != c
    decreases |text| - from
  {
    if from >= |text| then None
    else if text[from] == c then Some(from)
    else FindChar(text, from + 1, c)
  }

  /** Whether the marker lies wholly inside `text[lo..hi]`. */
  function HasMarker(text: string, lo: nat, hi: nat): (b: bool)
    requires hi <= |text|
    ensures b <==> exists i :: lo <= i && i + MarkerLength <= hi && MarkerAt(text, i)
    decreases hi - lo
  {
    if lo + MarkerLength > hi then false
    else MarkerAt(text, lo) || HasMarker(text, lo + 1, hi)
  }

  /** The match at `s`, if there is one. */
  function TryAt(html: string, s: nat): (r: Option<Block>)
    ensures r.Some? ==> r.value.start == s && BlockAt(html, r.value)
    ensures r.None? ==> !MatchAt(html, s)
  {
    if !MatchesAt(html, s, OpenTag) then None
    else
      match FindChar(html, s + |OpenTag|, '>')
      case None => None
      case Some(e) =>
        if !HasMarker(html, s + |OpenTag|, e) then None
        else
          match FindFrom(html, e + 1, CloseTag)
          case None => None
          case Some(c) => Some(Block(s, e + 1, c))
  }

  /** `re.search` from position `s`: the match with the smallest start. */
  function FindBlockFrom(html: string, s: nat): (r: Option<Block>)
    ensures r.Some? ==> s <= r.value.start && BlockAt(html, r.value)
    ensures r.Some? ==> forall t :: s <= t < r.value.start ==> !MatchAt(html, t)
    ensures r.None? ==> forall t :: s <= t ==> !MatchAt(html, t)
    decreases |html| - s
  {
    if s + |OpenTag| > |html| then NoMatchPast(html, s); None
    else
      match TryAt(html, s)
      case Some(b) => Some(b)
      case None => FindBlockFrom(html, s + 1)
  }

  lemma NoMatchPast(html: string, s: nat)
    requires s + |OpenTag| > |html|
    ensures forall t :: s <= t ==> !MatchAt(html, t)
  {
  }

  function FindBlock(html: string): (r: Option<Block>)
  {
    FindBlockFrom(html, 0)
  }

  /** The earliest match is the only one with no match before it. */
  lemma FindBlockUnique(html: string, b: Block)
    requires BlockAt(html, b)
    requires forall t: nat :: t < b.start ==> !MatchAt(html, t)
    ensures FindBlock(html) == Some(b)
  {
    var r := FindBlock(html);
    assert MatchAt(html, b.start);
    assert r.Some?;
    assert MatchAt(html, r.value.start);
    BlockAtUnique(html, r.value, b);
  }

  // ---------------------------------------------------------------------------
  // Properties of the match
  // ---------------------------------------------------------------------------

  lemma BlocksAreMatches(html: string)
    ensures forall b :: BlockAt(html, b) ==> MatchAt(html, b.start)
  {
    forall b | BlockAt(html, b) ensures MatchAt(html, b.start) {
      assert BlockAt(html, Block(b.start, b.bodyStart, b.bodyEnd));
    }
  }

  /** The two documents differ at most in the case of ASCII letters. */
  predicate SameUpToCase(h1: string, h2: string)
  {
    |h1| == |h2| && forall k :: 0 <= k < |h1| ==> LowerChar(h1[k]) == LowerChar(h2[k])
  }

  lemma MatchesAtUpToCase(h1: string, h2: string, i: nat, pat: string)
    requires SameUpToCase(h1, h2)
    ensures MatchesAt(h1, i, pat) <==> MatchesAt(h2, i, pat)
  {
    if i + |pat| <= |h1| {
      forall k | 0 <= k < |pat|
        ensures CharMatches(h1[i + k], pat[k]) <==> CharMatches(h2[i + k], pat[k])
      {
        assert LowerChar(h1[i + k]) == LowerChar(h2[i + k]);
      }
    }
  }

  /** Case changes keep `>` and the quote characters as they are. */
  lemma SymbolsUpToCase(c1: char, c2: char)
    requires LowerChar(c1) == LowerChar(c2)
    ensures (c1 == '>' <==> c2 == '>') && (IsQuote(c1) <==> IsQuote(c2))
  {
  }

  lemma MarkerAtUpToCase(h1: string, h2: string, i: nat)
    requires SameUpToCase(h1, h2) && MarkerAt(h1, i)
    ensures MarkerAt(h2, i)
  {
    MatchesAtUpToCase(h1, h2, i, AttrName);
    MatchesAtUpToCase(h1, h2, i + 4, MarkerValue);
    SymbolsUpToCase(h1[i + 3], h2[i + 3]);
    SymbolsUpToCase(h1[i + 18], h2[i + 18]);
  }

  lemma NoAngleUpToCase(h1: string, h2: string, lo: nat, hi: nat)
    requires SameUpToCase(h1, h2) && hi <= |h1|
    requires forall k :: lo <= k < hi ==> h1[k] != '>'
    ensures forall k :: lo <= k < hi ==> h2[k] != '>'
  {
    forall k | lo <= k < hi ensures h2[k] != '>' {
      SymbolsUpToCase(h1[k], h2[k]);
    }
  }

  lemma NoCloseUpToCase(h1: string, h2: string, lo: nat, hi: nat)
    requires SameUpToCase(h1, h2)
    requires forall k :: lo <= k < hi ==> !MatchesAt(h1, k, CloseTag)
    ensures forall k :: lo <= k < hi ==> !MatchesAt(h2, k, CloseTag)
  {
    forall k | lo <= k < hi ensures !MatchesAt(h2, k, CloseTag) {
      MatchesAtUpToCase(h1, h2, k, CloseTag);
    }
  }

  lemma BlockAtUpToCase(h1: string, h2: string, b: Block)
    requires SameUpToCase(h1, h2) && BlockAt(h1, b)
    ensures BlockAt(h2, b)
  {
    MatchesAtUpToCase(h1, h2, b.start, OpenTag);
    MatchesAtUpToCase(h1, h2, b.bodyEnd, CloseTag);
    var i :| b.start + |OpenTag| <= i && i + MarkerLength <= b.bodyStart - 1 && MarkerAt(h1, i);
    MarkerAtUpToCase(h1, h2, i);
    SymbolsUpToCase(h1[b.bodyStart - 1], h2[b.bodyStart - 1]);
    NoAngleUpToCase(h1, h2, b.start + |OpenTag|, b.bodyStart - 1);
    NoCloseUpToCase(h1, h2, b.bodyStart, b.bodyEnd);
  }

  lemma MatchAtUpToCase(h1: string, h2: string, t: nat)
    requires SameUpToCase(h1, h2)
    ensures MatchAt(h1, t) <==> MatchAt(h2, t)
  {
    assert SameUpToCase(h2, h1);
    if MatchAt(h1, t) {
      var bs, be :| BlockAt(h1, Block(t, bs, be));
      BlockAtUpToCase(h1, h2, Block(t, bs, be));
    }
    if MatchAt(h2, t) {
      var bs, be :| BlockAt(h2, Block(t, bs, be));
      BlockAtUpToCase(h2, h1, Block(t, bs, be));
    }
  }

  /** Tag, attribute and closing-tag matching ignore case: changing the case
      of ASCII letters anywhere in the document finds the same block. */
  lemma CaseInsensitive(h1: string, h2: string)
    requires SameUpToCase(h1, h2)
    ensures FindBlock(h1) == FindBlock(h2)
  {
    forall t: nat ensures MatchAt(h1, t) <==> MatchAt(h2, t) {
      MatchAtUpToCase(h1, h2, t);
    }
    BlocksAreMatches(h1);
    BlocksAreMatches(h2);
    match FindBlock(h1)
    case None =>
    case Some(b) =>
      BlockAtUpToCase(h1, h2, b);
      FindBlockUnique(h2, b);
  }

  /** The opening tag up to and including its `>`, as the pattern admits it. */
  function TagText(before: string, q1: char, q2: char, after: string): string
  {
    OpenTag + before + MarkerText(q1, q2) + after + ">"
  }

  /** A pattern literal matches itself wherever it is placed. */
  lemma LiteralMatches(a: string, pat: string, b: string)
    requires forall k :: 0 <= k < |pat| ==> LowerChar(pat[k]) == pat[k]
    ensures MatchesAt(a + pat + b, |a|, pat)
  {
    var text := a + pat + b;
    forall k | 0 <= k < |pat| ensures CharMatches(text[|a| + k], pat[k]) {
      assert text[|a| + k] == pat[k];
    }
  }

  /** The marker text, `id=`, a quote, `dashboard-data`, a quote. */
  function MarkerText(q1: char, q2: char): (m: string)
    ensures |m| == MarkerLength
  {
    AttrName + [q1] + MarkerValue + [q2]
  }

  lemma MarkerShape(head: string, q1: char, q2: char, tail: string)
    requires IsQuote(q1) && IsQuote(q2)
    ensures MarkerAt(head + MarkerText(q1, q2) + tail, |head|)
  {
    var html := head + MarkerText(q1, q2) + tail;
    assert html == head + AttrName + ([q1] + MarkerValue + [q2] + tail);
    LiteralMatches(head, AttrName, [q1] + MarkerValue + [q2] + tail);
    assert html == (head + AttrName + [q1]) + MarkerValue + ([q2] + tail);
    LiteralMatches(head + AttrName + [q1], MarkerValue, [q2] + tail);
  }

  /** Gluing `>`-free text: the first `>` after `head + body` is the
      start of `tail` when `body` has none. */
  lemma NoAngle(head: string, body: string, tail: string)
    requires forall k :: 0 <= k < |body| ==> body[k] != '>'
    ensures var html := head + body + tail;
            forall k :: |head| <= k < |head| + |body| ==> html[k] != '>'
  {
    var html := head + body + tail;
    forall k | |head| <= k < |head| + |body| ensures html[k] != '>' {
      assert html[k] == body[k - |head|];
    }
  }

  lemma NoAngle3(a: string, b: string, c: string)
    requires forall k :: 0 <= k < |a| ==> a[k] != '>'
    requires forall k :: 0 <= k < |b| ==> b[k] != '>'
    requires forall k :: 0 <= k < |c| ==> c[k] != '>'
    ensures forall k :: 0 <= k < |a + b + c| ==> (a + b + c)[k] != '>'
  {
    forall k | 0 <= k < |a + b + c| ensures (a + b + c)[k] != '>' {
      if k < |a| { assert (a + b + c)[k] == a[k]; }
      else if k < |a| + |b| { assert (a + b + c)[k] == b[k - |a|]; }
      else { assert (a + b + c)[k] == c[k - |a| - |b|]; }
    }
  }

  lemma TagTextShape(before: string, q1: char, q2: char, after: string, tail: string)
    requires forall k :: 0 <= k < |before| ==> before[k] != '>'
    requires forall k :: 0 <= k < |after| ==> after[k] != '>'
    requires IsQuote(q1) && IsQuote(q2)
    ensures TagEndsAt(TagText(before, q1, q2, after) + tail, 0, |TagText(before, q1, q2, after)| - 1)
  {
    var marker := MarkerText(q1, q2);
    var inner := before + marker + after;
    var html := TagText(before, q1, q2, after) + tail;
    assert html == OpenTag + inner + (">" + tail);
    LiteralMatches([], OpenTag, inner + (">" + tail));
    assert html == (OpenTag + before) + marker + (after + (">" + tail));
    MarkerShape(OpenTag + before, q1, q2, after + (">" + tail));
    MarkerHasNoAngle(q1, q2);
    NoAngle3(before, marker, after);
    NoAngle(OpenTag, inner, ">" + tail);
    assert MarkerAt(html, |OpenTag| + |before|);
  }

  lemma MarkerHasNoAngle(q1: char, q2: char)
    requires IsQuote(q1) && IsQuote(q2)
    ensures forall k :: 0 <= k < |MarkerText(q1, q2)| ==> MarkerText(q1, q2)[k] != '>'
  {
  }

  /** A closing tag that does not start inside `body + CloseTag` at a
      position inside `body` does not start there in any text around it. */
  lemma BodyShape(tag: string, body: string, rest: string)
    requires forall k :: 0 <= k < |body| ==> !MatchesAt(body + CloseTag, k, CloseTag)
    ensures var html := tag + (body + CloseTag + rest);
            BodyEndsAt(html, |tag|, |tag| + |body|) && html[|tag|..|tag| + |body|] == body
  {
    var html := tag + (body + CloseTag + rest);
    assert html == tag + body + CloseTag + rest;
    LiteralMatches(tag + body, CloseTag, rest);
    forall k | |tag| <= k < |tag| + |body| ensures !MatchesAt(html, k, CloseTag) {
      var j := k - |tag|;
      assert html == tag + (body + CloseTag) + rest;
      ShiftMatches(tag, body + CloseTag, rest, j, CloseTag);
    }
  }

  lemma ShiftMatches(a: string, m: string, b: string, j: nat, pat: string)
    requires j + |pat| <= |m|
    ensures MatchesAt(a + m + b, |a| + j, pat) <==> MatchesAt(m, j, pat)
  {
    var text := a + m + b;
    forall n | 0 <= n < |pat| ensures CharMatches(text[|a| + j + n], pat[n]) <==> CharMatches(m[j + n], pat[n]) {
      assert text[|a| + j + n] == m[j + n];
    }
  }

  /** A block opening the document is the match `re.search` returns. */
  lemma LeadingBlock(html: string, b: Block)
    requires b.start == 0 && b.bodyStart > 0
    requires TagEndsAt(html, 0, b.bodyStart - 1) && BodyEndsAt(html, b.bodyStart, b.bodyEnd)
    ensures FindBlock(html) == Some(b)
  {
    FindBlockUnique(html, b);
  }

  // ---------------------------------------------------------------------------
  // extract_data
  // ---------------------------------------------------------------------------

  /** `match.group(1).strip()` */
  function Payload(html: string, b: Block): string
    requires b.bodyStart <= b.bodyEnd <= |html|
  {
    Strip(html[b.bodyStart..b.bodyEnd])
  }

  /** The block `re.search` returns. */
  ghost predicate Earliest(html: string, b: Block)
  {
    BlockAt(html, b) && forall t: nat :: t < b.start ==> !MatchAt(html, t)
  }

  lemma EarliestUnique(html: string)
    ensures forall b1, b2 :: Earliest(html, b1) && Earliest(html, b2) ==> b1 == b2
  {
    forall b1, b2 | Earliest(html, b1) && Earliest(html, b2) ensures b1 == b2 {
      BlocksAreMatches(html);
      BlockAtUnique(html, b1, b2);
    }
  }

  /** Python's `len` on a JSON value; `None` where it raises TypeError. */
  function Length(v: Json): Option<nat>
  {
    match v
    case JArray(items) => Some(|items|)
    case JObject(fields) => Some(|fields|)
    case JString(s) => Some(|s|)
    case _ => None
  }

  /** `len(data.get('records', []))`, the count printed after writing;
      `None` where that line raises (AttributeError when the document is
      not an object, TypeError when `records` has no length). */
  function RecordCount(data: Json): (n: Option<nat>)
    ensures !data.JObject? ==> n.None?
    ensures data.JObject? && "records" !in data.fields ==> n == Some(0)
    ensures data.JObject? && "records" in data.fields && data.fields["records"].JArray?
            ==> n == Some(|data.fields["records"].items|)
  {
    match data
    case JObject(fields) =>
      Length(if "records" in fields then fields["records"] else JArray([]))
    case _ => None
  }

  /** The result of one extraction. Only `Written` writes the target file:
      the two errors are raised before the write. */
  datatype Outcome =
    | NotFound                                 // ValueError: no dashboard-data block
    | InvalidPayload                           // json.loads raised
    | Written(data: Json, count: Option<nat>)  // target holds `data`; `count` as printed

  /** `extract_data`, with `decode` standing for `json.loads`. */
  function ExtractData(html: string, decode: string -> Option<Json>): (r: Outcome)
    ensures r.NotFound? <==> forall t: nat :: !MatchAt(html, t)
    ensures r.InvalidPayload? <==>
              exists b :: Earliest(html, b) && b.bodyEnd <= |html| && decode(Payload(html, b)).None?
    ensures r.Written? ==>
              exists b :: Earliest(html, b) && b.bodyEnd <= |html| && decode(Payload(html, b)) == Some(r.data)
    ensures r.Written? ==> r.count == RecordCount(r.data)
  {
    BlocksAreMatches(html);
    EarliestUnique(html);
    match FindBlock(html)
    case None => NotFound
    case Some(b) =>
      assert Earliest(html, b);
      match decode(Payload(html, b))
      case None => InvalidPayload
      case Some(data) => Written(data, RecordCount(data))
  }

  /** A document opening with a dashboard-data block: the outcome is decided
      by decoding that block's stripped body. */
  lemma ExtractLeading(html: string, b: Block, decode: string -> Option<Json>)
    requires b.start == 0 && b.bodyStart > 0
    requires TagEndsAt(html, 0, b.bodyStart - 1) && BodyEndsAt(html, b.bodyStart, b.bodyEnd)
    ensures b.bodyEnd <= |html|
    ensures ExtractData(html, decode)
            == match decode(Strip(html[b.bodyStart..b.bodyEnd]))
               case None => InvalidPayload
               case Some(d) => Written(d, RecordCount(d))
  {
    LeadingBlock(html, b);
  }

  /** When that body is JSON text padded by whitespace, exactly that JSON
      text is decoded. */
  lemma ExtractPadded(html: string, b: Block, front: string, json: string, back: string,
                      decode: string -> Option<Json>)
    requires b.start == 0 && b.bodyStart > 0
    requires TagEndsAt(html, 0, b.bodyStart - 1) && BodyEndsAt(html, b.bodyStart, b.bodyEnd)
    requires b.bodyEnd <= |html| && html[b.bodyStart..b.bodyEnd] == front + json + back
    requires AllSpace(front) && AllSpace(back) && Trimmed(json)
    ensures ExtractData(html, decode)
            == match decode(json)
               case None => InvalidPayload
               case Some(d) => Written(d, RecordCount(d))
  {
    ExtractLeading(html, b, decode);
    StripPadding(front, json, back);
  }
}
