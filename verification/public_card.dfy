/** `composables/usePublicCard.js`: the lookup of a card by the username in a
    public link, the shaping of the record it returns, and the URLs and
    visibility test built from such a card.  The HTTP request is a parameter:
    the caller supplies the response the backend gives to the request. */
module PublicCard {
  import opened Wrappers
  import opened Strings
  import opened JsValues
  import opened Records

  // ---------------------------------------------------------------------
  // Filter literals of the backend's filter language

  const Quote: char := '\''
  const Backslash: char := '\\'

  /** Index of the quote that closes a single-quoted literal whose body
      starts at index 0 of `s`, searching from `i`: the first quote not
      preceded by a backslash. */
  function ClosingQuote(s: string, i: nat): (r: Option<nat>)
    requires i <= |s|
    ensures r.Some? ==> i <= r.value < |s| && s[r.value] == Quote
    decreases |s| - i
  {
    if i == |s| then None
    else if s[i] == Quote && (i == 0 || s[i - 1] != Backslash) then Some(i)
    else ClosingQuote(s, i + 1)
  }

  /** Inside a literal, backslash-quote stands for a quote. */
  function UnescapeQuotes(t: string): (r: string)
    ensures |r| <= |t|
    decreases |t|
  {
    if |t| >= 2 && t[0] == Backslash && t[1] == Quote then [Quote] + UnescapeQuotes(t[2..])
    else if t == [] then []
    else [t[0]] + UnescapeQuotes(t[1..])
  }

  /** Reads a single-quoted literal whose opening quote was just consumed:
      its value and the filter text after the closing quote. */
  function ReadLiteral(s: string): Option<(string, string)> {
    match ClosingQuote(s, 0)
    case None => None
    case Some(j) => Some((UnescapeQuotes(s[..j]), s[j + 1..]))
  }

  const RecordsPath: string := "/api/collections/cards/records"

  /** The list request sent to the backend. */
  datatype Request = Request(url: string, filter: string, expand: string, perPage: nat)

  /** The backend's answer: a failed request, or a page that may lack `items`. */
  datatype Response = FetchFailed(status: int) | Page(items: Option<seq<Card>>)

  const FilterHead: string := "username='"
  const FilterTail: string := "' && is_active=true"

  /** The username the backend compares against, read from a filter of the
      shape the lookup builds, with the filter text after the literal. */
  function FilterUsername(filter: string): Option<(string, string)> {
    if StartsWith(filter, FilterHead) then ReadLiteral(filter[|FilterHead|..]) else None
  }

  /** A character with a meaning inside a single-quoted literal. */
  predicate IsLiteralSpecial(c: char) {
    c == Quote || c == Backslash
  }

  /** The filter of the lookup: the username pasted between quotes as it is. */
  function LookupFilter(normalized: string): string {
    FilterHead + normalized + FilterTail
  }

  lemma {:induction false} PlainLiteralHasNoQuote(t: string, i: nat)
    requires i <= |t|
    requires forall k :: 0 <= k < |t| ==> !IsLiteralSpecial(t[k])
    ensures ClosingQuote(t + [Quote] + FilterTail[1..], i) == Some(|t|)
    decreases |t| - i
  {
    var s := t + [Quote] + FilterTail[1..];
    if i < |t| {
      assert s[i] == t[i];
      PlainLiteralHasNoQuote(t, i + 1);
    } else {
      assert s[i] == Quote;
      assert i > 0 ==> s[i - 1] == t[i - 1];
    }
  }

  lemma {:induction false} PlainUnescape(t: string)
    requires forall k :: 0 <= k < |t| ==> !IsLiteralSpecial(t[k])
    ensures UnescapeQuotes(t) == t
    decreases |t|
  {
    if t != [] {
      PlainUnescape(t[1..]);
    }
  }

  /** A username without quote or backslash is read back whole from the
      filter, and the only condition after it is `is_active=true`. */
  lemma {:induction false} PlainFilterRoundTrip(normalized: string)
    requires forall k :: 0 <= k < |normalized| ==> !IsLiteralSpecial(normalized[k])
    ensures FilterUsername(LookupFilter(normalized)) == Some((normalized, FilterTail[1..]))
  {
    var f := LookupFilter(normalized);
    assert FilterTail == [Quote] + FilterTail[1..];
    assert f[|FilterHead|..] == normalized + [Quote] + FilterTail[1..];
    PlainLiteralHasNoQuote(normalized, 0);
    PlainUnescape(normalized);
    var body := normalized + [Quote] + FilterTail[1..];
    assert body[..|normalized|] == normalized;
    assert body[|normalized| + 1..] == FilterTail[1..];
  }

  /** The request the lookup sends as written: whatever the username holds,
      its lower-cased form is pasted into the filter. */
  function AsWrittenRequest(baseUrl: string, username: string): (r: Request)
    ensures r.url == baseUrl + RecordsPath && r.expand == "user_id" && r.perPage == 1
    ensures StartsWith(r.filter, FilterHead) && EndsWith(r.filter, FilterTail)
  {
    Request(baseUrl + RecordsPath, LookupFilter(LowerAscii(username)), "user_id", 1)
  }

  /** A quote as the second character of the pasted name closes the literal
      after the first character; the rest of the name is read as filter
      syntax. */
  lemma QuoteClosesLiteral(normalized: string)
    requires |normalized| >= 2 && !IsLiteralSpecial(normalized[0]) && normalized[1] == Quote
    ensures FilterUsername(LookupFilter(normalized)) == Some(([normalized[0]], normalized[2..] + FilterTail))
  {
    var s := LookupFilter(normalized)[|FilterHead|..];
    assert s == normalized + FilterTail;
    assert ClosingQuote(s, 0) == Some(1);
    assert s[..1] == [normalized[0]];
    assert s[2..] == normalized[2..] + FilterTail;
    assert UnescapeQuotes([normalized[0]]) == [normalized[0]];
  }

  /** A quote in the username ends the literal early: the backend compares
      against `x` instead of the username, and the rest of the username
      becomes filter syntax (here a clause admitting inactive cards). */
  lemma QuoteEndsLiteralEarly(baseUrl: string)
    ensures var u := "x' || is_active=false || username='x";
      var read := FilterUsername(AsWrittenRequest(baseUrl, u).filter);
      && read == Some(("x", LowerAscii(u)[2..] + FilterTail))
      && read.value.0 != LowerAscii(u)
  {
    var u := "x' || is_active=false || username='x";
    var n := LowerAscii(u);
    assert n[0] == 'x' && n[1] == Quote;
    QuoteClosesLiteral(n);
  }

  // ---------------------------------------------------------------------
  // fetchPublicCard

  /** The request for `username`, or `None` when its lower-cased form holds
      a quote or a backslash: no filter literal can carry such a name safely,
      so the lookup finds nothing. */
  function PublicCardRequest(baseUrl: string, username: string): (r: Option<Request>)
    ensures r.Some? ==> r.value.url == baseUrl + RecordsPath && r.value.expand == "user_id" && r.value.perPage == 1
    ensures r.Some? <==> forall k :: 0 <= k < |username| ==> !IsLiteralSpecial(LowerAscii(username)[k])
    ensures r.Some? ==> FilterUsername(r.value.filter) == Some((LowerAscii(username), FilterTail[1..]))
  {
    var normalized := LowerAscii(username);
    if exists k :: 0 <= k < |normalized| && IsLiteralSpecial(normalized[k]) then None
    else
      PlainFilterRoundTrip(normalized);
      Some(Request(baseUrl + RecordsPath, LookupFilter(normalized), "user_id", 1))
  }

  /** `card.expand ||= {}` and `card.expand.user_id ||= {id, username}`. */
  function WithUserExpand(card: Card): (r: Card)
    ensures r.expand.Some? && r.expand.value.userId.Some?
    ensures r.(expand := card.expand) == card
    ensures card.expand.Some? && card.expand.value.userId.Some? ==> r == card
    ensures !(card.expand.Some? && card.expand.value.userId.Some?) ==>
              r.expand.value.userId == Some(UserRef(card.userId, card.username))
  {
    var expand := card.expand.GetOr(Expand(None));
    if expand.userId.Some? then card.(expand := Some(expand))
    else card.(expand := Some(expand.(userId := Some(UserRef(card.userId, card.username)))))
  }

  /** The card a response yields: the first listed card, shaped by
      `WithUserExpand`; `None` when the request failed or lists nothing. */
  function FirstCard(response: Response): (r: Option<Card>)
    ensures r.Some? <==> response.Page? && response.items.Some? && |response.items.value| > 0
    ensures r.Some? ==> r.value.(expand := response.items.value[0].expand) == response.items.value[0]
    ensures r.Some? ==> r.value.expand.Some? && r.value.expand.value.userId.Some?
  {
    match response
    case FetchFailed(_) => None
    case Page(items) =>
      if items.None? || |items.value| == 0 then None
      else Some(WithUserExpand(items.value[0]))
  }

  /** `fetchPublicCard` as written: the request built from the unescaped
      lower-cased name is always sent, and the first listed card is
      returned. */
  function FetchPublicCard(baseUrl: string, username: string, respond: Request -> Response): (r: Option<Card>)
    ensures r.Some? ==> r.value.expand.Some? && r.value.expand.value.userId.Some?
    ensures r.Some? <==> var response := respond(AsWrittenRequest(baseUrl, username));
      response.Page? && response.items.Some? && |response.items.value| > 0
  {
    FirstCard(respond(AsWrittenRequest(baseUrl, username)))
  }

  /** The lookup returns a card exactly when the backend lists one for the
      request it sent, and then it is the first listed card with only its
      user reference filled in; the request depends on the username only
      through its lower-cased form. */
  lemma FetchPublicCardResult(baseUrl: string, username: string, respond: Request -> Response)
    ensures var request := AsWrittenRequest(baseUrl, username);
      && request == AsWrittenRequest(baseUrl, LowerAscii(username))
      && (FetchPublicCard(baseUrl, username, respond).Some? <==>
            respond(request).Page? && respond(request).items.Some? && |respond(request).items.value| > 0)
      && (FetchPublicCard(baseUrl, username, respond).Some? ==>
            FetchPublicCard(baseUrl, username, respond).value.(expand := respond(request).items.value[0].expand)
            == respond(request).items.value[0])
  {
    var n := LowerAscii(username);
    assert LowerAscii(n) == n;
  }

  /** The lookup with the corrected request: a name the filter literal
      cannot carry finds no card and nothing is sent for it. */
  function FetchPublicCardCorrected(baseUrl: string, username: string, respond: Request -> Response): (r: Option<Card>)
    ensures r.Some? ==> PublicCardRequest(baseUrl, username).Some?
    ensures r.Some? ==> r.value.expand.Some? && r.value.expand.value.userId.Some?
  {
    match PublicCardRequest(baseUrl, username)
    case None => None
    case Some(request) => FirstCard(respond(request))
  }

  /** For a name without quote or backslash the corrected lookup sends the
      same request as the written one and returns the same card; for any
      other name it returns none. */
  lemma CorrectedFetchAgrees(baseUrl: string, username: string, respond: Request -> Response)
    ensures PublicCardRequest(baseUrl, username).Some? ==>
      PublicCardRequest(baseUrl, username).value == AsWrittenRequest(baseUrl, username) &&
      FetchPublicCardCorrected(baseUrl, username, respond) == FetchPublicCard(baseUrl, username, respond)
    ensures PublicCardRequest(baseUrl, username).None? ==>
      FetchPublicCardCorrected(baseUrl, username, respond).None?
  {
  }

  // ---------------------------------------------------------------------
  // URLs and visibility

  const FilesPath: string := "/api/files/cards/"

  /** `getPublicImageUrl`: the file URL of the card's profile image, or the
      empty string when the card, its image or its id is missing. */
  function GetPublicImageUrl(card: Option<Card>, baseUrl: string): (r: string)
    ensures r == [] <==> card.None? || !Truthy(card.value.profileImage) || !Truthy(card.value.id)
  {
    if card.None? || !Truthy(card.value.profileImage) || !Truthy(card.value.id) then []
    else baseUrl + FilesPath + card.value.id.s + "/" + card.value.profileImage.s
  }

  /** Splits a file URL under `baseUrl` into record id and file name at the
      first `/` after the files path. */
  function ImageUrlParts(url: string, baseUrl: string): Option<(string, string)> {
    var prefix := baseUrl + FilesPath;
    if !StartsWith(url, prefix) then None
    else
      var rest := url[|prefix|..];
      match FindChar(rest, 0, '/')
      case None => None
      case Some(j) => Some((rest[..j], rest[j + 1..]))
  }

  /** The image URL names the card's record and file: both are recovered
      from it when the id has no `/`. */
  lemma ImageUrlRoundTrip(card: Card, baseUrl: string)
    requires Truthy(card.profileImage) && Truthy(card.id)
    requires '/' !in card.id.s
    ensures ImageUrlParts(GetPublicImageUrl(Some(card), baseUrl), baseUrl) == Some((card.id.s, card.profileImage.s))
  {
    var url := GetPublicImageUrl(Some(card), baseUrl);
    var prefix := baseUrl + FilesPath;
    var id := card.id.s;
    var rest := id + "/" + card.profileImage.s;
    assert url == prefix + rest;
    assert url[|prefix|..] == rest;
    assert rest[|id|] == '/';
    assert NoCharIn(rest, 0, |id|, '/') by {
      forall k | 0 <= k < |id| ensures rest[k] != '/' {
        assert rest[k] == id[k];
      }
    }
    assert FindChar(rest, 0, '/') == Some(|id|);
    assert rest[..|id|] == id;
    assert rest[|id| + 1..] == card.profileImage.s;
  }

  const UsersPath: string := "/users/"

  /** `getPublicShareUrl`: the site's public page of `username`. */
  function GetPublicShareUrl(siteUrl: string, username: JsValue): (r: string)
    ensures StartsWith(r, siteUrl + UsersPath)
    ensures r[|siteUrl + UsersPath|..] == Interp(username)
  {
    siteUrl + UsersPath + Interp(username)
  }

  /** `a && b`: the first operand when it is falsy, else the second. */
  function And(a: JsValue, b: JsValue): (r: JsValue)
    ensures Truthy(r) <==> Truthy(a) && Truthy(b)
  {
    if Truthy(a) then b else a
  }

  /** `isValidPublicCard`: `false` for a missing card, else the value of
      `first_name && last_name && is_active && username`. */
  function IsValidPublicCard(card: Option<Card>): (r: JsValue)
    ensures Truthy(r) <==> card.Some? && Truthy(card.value.firstName) && Truthy(card.value.lastName)
                           && card.value.isActive && Truthy(card.value.username)
  {
    match card
    case None => Bool(false)
    case Some(c) => And(And(And(c.firstName, c.lastName), Bool(c.isActive)), c.username)
  }
}
