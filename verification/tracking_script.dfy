/** The tracking-script sanitizer of `composables/useTrackingScript.js`: an
    untrusted pasted snippet is accepted only when it holds exactly one script
    tag whose quoted `src` has an allow-listed host; only a fixed list of
    attributes is carried over, and the provider is labelled by ordered
    substring tests.  The host of a URL is computed by the platform's `URL`
    parser, which the model receives as the parameter `hostOf` (`None` when
    the parser throws). */
module TrackingScript {
  import opened Wrappers
  import opened Strings
  import opened JsValues
  import opened TagScanner

  /** The attribute names copied from the tag, in the order they are tried. */
  const SafeAttributes: seq<string> := [
    "defer", "async", "type", "crossorigin", "integrity",
    "data-website-id", "data-domain", "data-api", "data-exclude",
    "data-include", "data-host-url", "data-track-localhost"
  ]

  /** The attributes that may be stored as the boolean `true` when present
      without a quoted value. */
  const BooleanAttributes: seq<string> := ["defer", "async"]

  /** Hosts (and, by suffix, their subdomains) a script may be loaded from. */
  const AllowedDomains: seq<string> := [
    "google-analytics.com", "googletagmanager.com", "analytics.google.com",
    "umami.is", "cloud.umami.is",
    "plausible.io",
    "simpleanalytics.com",
    "hotjar.com", "fullstory.com", "mixpanel.com"
  ]

  const InvalidScriptMessage: string := "Invalid script format or unsupported provider"

  /** A value stored under an attribute name: a captured string or a boolean. */
  datatype AttrValue = Text(text: string) | Flag(flag: bool)

  /** JavaScript truthiness of an attribute value. */
  predicate AttrTruthy(v: AttrValue) {
    match v
    case Text(t) => t != []
    case Flag(b) => b
  }

  /** The host component the `URL` parser yields for a string, or `None`
      when it throws. */
  type HostParser = string -> Option<string>

  // ---------------------------------------------------------------------
  // Domain allow-list

  /** `host === domain || host.endsWith('.' + domain)` */
  predicate MatchesDomain(host: string, domain: string) {
    host == domain || EndsWith(host, "." + domain)
  }

  /** `domains.some(d => MatchesDomain(host, d))` */
  function AnyDomainMatches(host: string, domains: seq<string>): (r: bool)
    ensures r <==> exists i :: 0 <= i < |domains| && MatchesDomain(host, domains[i])
  {
    if domains == [] then false
    else if MatchesDomain(host, domains[0]) then true
    else
      var r := AnyDomainMatches(host, domains[1..]);
      assert forall i :: 1 <= i < |domains| ==> domains[1..][i - 1] == domains[i];
      r
  }

  /** `isAllowedAnalyticsDomain`: fails closed when the URL does not parse;
      otherwise the host must equal an allow-listed domain or be a subdomain
      of one. */
  function IsAllowedAnalyticsDomain(src: string, hostOf: HostParser): (r: bool)
    ensures r <==> hostOf(src).Some?
                   && exists d :: d in AllowedDomains && MatchesDomain(hostOf(src).value, d)
  {
    match hostOf(src)
    case None => false
    case Some(host) => AnyDomainMatches(host, AllowedDomains)
  }

  // ---------------------------------------------------------------------
  // Provider classification

  datatype Provider = GoogleAnalytics | Umami | Plausible | SimpleAnalytics | Hotjar | OtherAnalytics

  /** The label shown for a provider. */
  function Label(p: Provider): string {
    match p
    case GoogleAnalytics => "Google Analytics"
    case Umami => "Umami"
    case Plausible => "Plausible"
    case SimpleAnalytics => "Simple Analytics"
    case Hotjar => "Hotjar"
    case OtherAnalytics => "Analytics"
  }

  /** The classification written as a table: each provider with the
      substrings that identify it, earlier rows taking precedence. */
  const ProviderTable: seq<(seq<string>, Provider)> := [
    (["google-analytics.com", "googletagmanager.com"], GoogleAnalytics),
    (["umami.is"], Umami),
    (["plausible.io"], Plausible),
    (["simpleanalytics.com"], SimpleAnalytics),
    (["hotjar.com"], Hotjar)
  ]

  ghost predicate RowMatches(src: string, row: (seq<string>, Provider)) {
    exists j :: 0 <= j < |row.0| && Contains(src, row.0[j])
  }

  /** The provider of the first table row one of whose substrings occurs in
      `src`, and the generic provider when no row does. */
  ghost predicate FirstRowProvider(src: string, table: seq<(seq<string>, Provider)>, p: Provider) {
    || (exists i :: 0 <= i < |table| && RowMatches(src, table[i]) && table[i].1 == p
          && forall k :: 0 <= k < i ==> !RowMatches(src, table[k]))
    || ((forall i :: 0 <= i < |table| ==> !RowMatches(src, table[i])) && p == OtherAnalytics)
  }

  /** Row `i` of the table matches exactly when one of its literal
      substrings is included in `src`. */
  lemma RowMatchesRows(src: string)
    ensures RowMatches(src, ProviderTable[0]) <==>
      Includes(src, "google-analytics.com") || Includes(src, "googletagmanager.com")
    ensures RowMatches(src, ProviderTable[1]) <==> Includes(src, "umami.is")
    ensures RowMatches(src, ProviderTable[2]) <==> Includes(src, "plausible.io")
    ensures RowMatches(src, ProviderTable[3]) <==> Includes(src, "simpleanalytics.com")
    ensures RowMatches(src, ProviderTable[4]) <==> Includes(src, "hotjar.com")
  {
    var t := ProviderTable;
    assert t[0].0 == ["google-analytics.com", "googletagmanager.com"];
    assert t[1].0 == ["umami.is"];
    assert t[2].0 == ["plausible.io"];
    assert t[3].0 == ["simpleanalytics.com"];
    assert t[4].0 == ["hotjar.com"];
    if Includes(src, "google-analytics.com") { assert Contains(src, t[0].0[0]); }
    if Includes(src, "googletagmanager.com") { assert Contains(src, t[0].0[1]); }
    if Includes(src, "umami.is") { assert Contains(src, t[1].0[0]); }
    if Includes(src, "plausible.io") { assert Contains(src, t[2].0[0]); }
    if Includes(src, "simpleanalytics.com") { assert Contains(src, t[3].0[0]); }
    if Includes(src, "hotjar.com") { assert Contains(src, t[4].0[0]); }
  }

  /** `detectProvider`: the ordered chain of `src.includes(...)` tests,
      which picks the provider of the first matching table row. */
  function DetectProvider(src: string): (r: Provider)
    ensures FirstRowProvider(src, ProviderTable, r)
  {
    RowMatchesRows(src);
    var t := ProviderTable;
    if Includes(src, "google-analytics.com") || Includes(src, "googletagmanager.com") then
      assert RowMatches(src, t[0]);
      GoogleAnalytics
    else if Includes(src, "umami.is") then
      assert RowMatches(src, t[1]) && !RowMatches(src, t[0]);
      Umami
    else if Includes(src, "plausible.io") then
      assert RowMatches(src, t[2]) && forall k :: 0 <= k < 2 ==> !RowMatches(src, t[k]);
      Plausible
    else if Includes(src, "simpleanalytics.com") then
      assert RowMatches(src, t[3]) && forall k :: 0 <= k < 3 ==> !RowMatches(src, t[k]);
      SimpleAnalytics
    else if Includes(src, "hotjar.com") then
      assert RowMatches(src, t[4]) && forall k :: 0 <= k < 4 ==> !RowMatches(src, t[k]);
      Hotjar
    else
      OtherAnalytics
  }

  // ---------------------------------------------------------------------
  // Attribute extraction

  /** The value stored for attribute `name` of `tag`, if any: the quoted value
      when `name="..."` (or `'...'`) occurs, else `true` for a boolean
      attribute whose name occurs anywhere in the tag text. */
  function AttributeValue(tag: string, name: string): Option<AttrValue> {
    match QuotedValue(tag, name)
    case Some(v) => Some(Text(v))
    case None =>
      if Includes(tag, name) && name in BooleanAttributes then Some(Flag(true)) else None
  }

  /** A value `tag` may legitimately carry under `name`: the quoted capture
      (non-empty, free of quote characters, taken from the tag), or `true` for
      a boolean attribute whose name occurs in the tag without a quoted value. */
  ghost predicate SafeValue(tag: string, name: string, v: AttrValue) {
    || (v.Text? && QuotedValue(tag, name) == Some(v.text) && v.text != []
        && (forall k :: 0 <= k < |v.text| ==> !IsQuote(v.text[k])) && Contains(tag, v.text))
    || (v == Flag(true) && name in BooleanAttributes && QuotedValue(tag, name).None?
        && Contains(tag, name))
  }

  /** The `attributes` object built by the `safeAttributes.forEach` loop. */
  function ExtractAttributes(tag: string): (r: map<string, AttrValue>)
    ensures r.Keys <= set n | n in SafeAttributes
    ensures forall n :: n in r ==> SafeValue(tag, n, r[n])
    ensures forall n :: n in SafeAttributes ==>
      (n in r <==> QuotedValue(tag, n).Some? || (n in BooleanAttributes && Contains(tag, n)))
  {
    map n | n in SafeAttributes && AttributeValue(tag, n).Some? :: AttributeValue(tag, n).value
  }

  // ---------------------------------------------------------------------
  // Parsing, validation, injection

  datatype ParsedScript = ParsedScript(src: string, attributes: map<string, AttrValue>, provider: Provider)

  /** The single script tag of `s`, when the global pattern matches exactly once. */
  function SingleTag(s: string): (r: Option<string>)
    ensures r.Some? <==> |AllTags(s, 0)| == 1
    ensures r.Some? ==> exists a, e :: 0 <= a < e <= |s| && TagAt(s, a) == Some(e) && r.value == s[a..e]
    ensures r.Some? ==> AllTags(s, 0)[0].0 <= AllTags(s, 0)[0].1 <= |s|
                        && r.value == s[AllTags(s, 0)[0].0..AllTags(s, 0)[0].1]
  {
    var tags := AllTags(s, 0);
    if |tags| != 1 then None
    else
      AllTagsAreMatches(s, 0);
      assert TagAt(s, tags[0].0) == Some(tags[0].1);
      Some(s[tags[0].0..tags[0].1])
  }

  /** Everything `parseTrackingScript` promises about a result for `raw`. */
  ghost predicate ParsedFrom(raw: JsString, hostOf: HostParser, p: ParsedScript) {
    && raw.Str? && SingleTag(raw.s).Some?
    && var tag := SingleTag(raw.s).value;
    && QuotedValue(tag, "src") == Some(p.src)
    && IsAllowedAnalyticsDomain(p.src, hostOf)
    && p.attributes.Keys <= (set n | n in SafeAttributes)
    && (forall n :: n in p.attributes ==> SafeValue(tag, n, p.attributes[n]))
    && p.attributes == ExtractAttributes(tag)
    && p.provider == DetectProvider(p.src)
  }

  /** `parseTrackingScript`. */
  function ParseTrackingScript(raw: JsString, hostOf: HostParser): (r: Option<ParsedScript>)
    ensures !NonBlank(raw) ==> r.None?
    ensures raw.Str? && |AllTags(raw.s, 0)| != 1 ==> r.None?
    ensures r.Some? <==>
      NonBlank(raw) && SingleTag(raw.s).Some?
      && QuotedValue(SingleTag(raw.s).value, "src").Some?
      && IsAllowedAnalyticsDomain(QuotedValue(SingleTag(raw.s).value, "src").value, hostOf)
    ensures r.Some? ==> ParsedFrom(raw, hostOf, r.value)
  {
    if !NonBlank(raw) then None
    else match SingleTag(raw.s)
      case None => None
      case Some(tag) =>
        match QuotedValue(tag, "src")
        case None => None
        case Some(src) =>
          if !IsAllowedAnalyticsDomain(src, hostOf) then None
          else Some(ParsedScript(src, ExtractAttributes(tag), DetectProvider(src)))
  }

  /** The result object of `validateTrackingScript`. */
  datatype Validation = Validation(isValid: bool, error: Option<string>, provider: Option<string>)

  /** `validateTrackingScript`. */
  function ValidateTrackingScript(raw: JsString, hostOf: HostParser): (r: Validation)
    ensures !NonBlank(raw) ==> r == Validation(true, None, None)
    ensures r.isValid <==> r.error.None?
    ensures r.isValid <==> !NonBlank(raw) || ParseTrackingScript(raw, hostOf).Some?
    ensures !r.isValid ==> r.error == Some(InvalidScriptMessage) && r.provider.None?
    ensures NonBlank(raw) && r.isValid ==>
      r.provider == Some(Label(ParseTrackingScript(raw, hostOf).value.provider))
  {
    if !NonBlank(raw) then Validation(true, None, None)
    else match ParseTrackingScript(raw, hostOf)
      case None => Validation(false, Some(InvalidScriptMessage), None)
      case Some(parsed) => Validation(true, None, Some(Label(parsed.provider)))
  }

  /** One entry of the `script` array handed to the page-head manager: the
      object `{ src, ...attributes, async, defer }`. */
  datatype ScriptEntry = ScriptEntry(props: map<string, AttrValue>)

  /** The argument of the one `useHead` call. */
  datatype HeadDescriptor = HeadDescriptor(script: seq<ScriptEntry>)

  function Lookup(m: map<string, AttrValue>, k: string): Option<AttrValue> {
    if k in m then Some(m[k]) else None
  }

  /** `x || d` on an attribute that may be absent: an absent attribute or
      `false` yields `d`; captured strings are never empty, so they win. */
  function OrDefault(x: Option<AttrValue>, d: AttrValue): AttrValue {
    match x
    case Some(Text(t)) => if t != [] then Text(t) else d
    case Some(Flag(b)) => if b then Flag(b) else d
    case None => d
  }

  /** The script object built from a parsed script: `src`, then the parsed
      attributes spread over it, then `async`/`defer` with their defaults. */
  function EntryFor(p: ParsedScript): (r: ScriptEntry)
    ensures r.props.Keys == {"src", "async", "defer"} + p.attributes.Keys
    ensures "src" !in p.attributes ==> r.props["src"] == Text(p.src)
    ensures r.props["async"] == (if "async" in p.attributes && p.attributes["async"] != Flag(false)
                                 && p.attributes["async"] != Text([]) then p.attributes["async"] else Flag(true))
    ensures r.props["defer"] == (if "defer" in p.attributes && p.attributes["defer"] != Flag(false)
                                 && p.attributes["defer"] != Text([]) then p.attributes["defer"] else Flag(false))
    ensures forall n :: n in p.attributes && n != "async" && n != "defer" ==> r.props[n] == p.attributes[n]
  {
    var props := map["src" := Text(p.src)] + p.attributes;
    ScriptEntry(props["async" := OrDefault(Lookup(p.attributes, "async"), Flag(true))]
                     ["defer" := OrDefault(Lookup(p.attributes, "defer"), Flag(false))])
  }

  /** `injectTrackingScript`: the descriptor passed to `useHead`, or `None`
      when nothing is registered. */
  function InjectTrackingScript(raw: JsString, hostOf: HostParser): (r: Option<HeadDescriptor>)
    ensures r.None? <==> ParseTrackingScript(raw, hostOf).None?
    ensures r.Some? ==> |r.value.script| == 1
  {
    match ParseTrackingScript(raw, hostOf)
    case None => None
    case Some(p) => Some(HeadDescriptor([EntryFor(p)]))
  }

  /** `src` is not among the safe attribute names, so the spread of the
      parsed attributes can never replace the validated source. */
  lemma SrcIsNotSafeAttribute()
    ensures "src" !in SafeAttributes
    ensures "async" in SafeAttributes && "defer" in SafeAttributes
  {
    assert SafeAttributes[0] == "defer" && SafeAttributes[1] == "async";
  }

  /** The script object of a parsed script whose attribute names are all safe. */
  lemma EntryForIsSafe(p: ParsedScript)
    requires p.attributes.Keys <= (set n | n in SafeAttributes)
    ensures
      var props := EntryFor(p).props;
      && props.Keys <= {"src"} + (set n | n in SafeAttributes)
      && props["src"] == Text(p.src)
      && (props["async"] == Flag(true) || ("async" in p.attributes && props["async"] == p.attributes["async"]))
      && (props["defer"] == Flag(false) || ("defer" in p.attributes && props["defer"] == p.attributes["defer"]))
      && (forall n :: n in props && n != "src" && n != "async" && n != "defer" ==>
            n in p.attributes && props[n] == p.attributes[n])
  {
    SrcIsNotSafeAttribute();
  }

  /** Every string value of the entry for a script parsed from `tag` is
      taken from `tag` and holds no quote character. */
  lemma EntryTextFromTag(p: ParsedScript, tag: string)
    requires QuotedValue(tag, "src") == Some(p.src)
    requires p.attributes.Keys <= (set n | n in SafeAttributes)
    requires forall n :: n in p.attributes ==> SafeValue(tag, n, p.attributes[n])
    ensures forall n :: n in EntryFor(p).props && EntryFor(p).props[n].Text? ==>
      var t := EntryFor(p).props[n].text;
      Contains(tag, t) && forall k :: 0 <= k < |t| ==> !IsQuote(t[k])
  {
    EntryForIsSafe(p);
    var props := EntryFor(p).props;
    forall n | n in props && props[n].Text?
      ensures Contains(tag, props[n].text) && forall k :: 0 <= k < |props[n].text| ==> !IsQuote(props[n].text[k])
    {
      if n != "src" {
        assert n in p.attributes && props[n] == p.attributes[n];
        assert SafeValue(tag, n, p.attributes[n]);
      }
    }
  }

  /** The registered script is built only from data that passed the checks:
      its `src` is the allow-listed parsed source (the spread cannot replace
      it, since `src` is not a safe attribute), every other key is a safe
      attribute carrying the parsed value, `async` is always truthy and
      `defer` is the parsed value or `false`. */
  lemma InjectedEntryIsSafe(raw: JsString, hostOf: HostParser)
    ensures InjectTrackingScript(raw, hostOf).Some? ==>
      var p := ParseTrackingScript(raw, hostOf).value;
      var props := InjectTrackingScript(raw, hostOf).value.script[0].props;
      && props.Keys <= {"src"} + (set n | n in SafeAttributes)
      && props["src"] == Text(p.src) && IsAllowedAnalyticsDomain(p.src, hostOf)
      && (props["async"] == Flag(true) || ("async" in p.attributes && props["async"] == p.attributes["async"]))
      && (props["defer"] == Flag(false) || ("defer" in p.attributes && props["defer"] == p.attributes["defer"]))
      && (forall n :: n in props && n != "src" && n != "async" && n != "defer" ==>
            n in p.attributes && props[n] == p.attributes[n])
      && AttrTruthy(props["async"])
  {
    if InjectTrackingScript(raw, hostOf).Some? {
      var p := ParseTrackingScript(raw, hostOf).value;
      assert ParsedFrom(raw, hostOf, p);
      EntryForIsSafe(p);
    }
  }

  /** Every string the registered script carries was typed by the user
      inside the accepted tag and holds no quote character, so no value can
      break out of its attribute. */
  lemma InjectedValuesFromInput(raw: JsString, hostOf: HostParser)
    ensures InjectTrackingScript(raw, hostOf).Some? ==>
      var props := InjectTrackingScript(raw, hostOf).value.script[0].props;
      forall n :: n in props && props[n].Text? ==>
        Contains(raw.s, props[n].text) && forall k :: 0 <= k < |props[n].text| ==> !IsQuote(props[n].text[k])
  {
    if InjectTrackingScript(raw, hostOf).Some? {
      var p := ParseTrackingScript(raw, hostOf).value;
      assert ParsedFrom(raw, hostOf, p);
      var props := EntryFor(p).props;
      var tag := SingleTag(raw.s).value;
      EntryTextFromTag(p, tag);
      var a, e :| 0 <= a < e <= |raw.s| && TagAt(raw.s, a) == Some(e) && tag == raw.s[a..e];
      forall n | n in props && props[n].Text? ensures Contains(raw.s, props[n].text) {
        ContainsInSlice(raw.s, a, e, props[n].text);
      }
    }
  }

  /** A Umami cloud script is labelled Umami: neither Google substring
      occurs (the source has no `g`), and `umami.is` does. */
  lemma UmamiCloudLabel()
    ensures Label(DetectProvider("https://cloud.umami.is/script.js")) == "Umami"
  {
    var src := "https://cloud.umami.is/script.js";
    assert forall i :: 0 <= i < |src| ==> src[i] != 'g';
    MissingCharNotContained(src, "google-analytics.com", 0);
    MissingCharNotContained(src, "googletagmanager.com", 0);
    assert OccursAt(src, "umami.is", 14);
    UmamiWithoutGoogle(src);
  }

  /** A source with `umami.is` and neither Google substring is Umami's. */
  lemma UmamiWithoutGoogle(src: string)
    requires !Includes(src, "google-analytics.com") && !Includes(src, "googletagmanager.com")
    requires Includes(src, "umami.is")
    ensures DetectProvider(src) == Umami
  {
  }

  /** Every provider substring has an `a`, so a source without one falls
      through every test of the chain. */
  lemma NoLetterAIsOther(src: string)
    requires forall i :: 0 <= i < |src| ==> src[i] != 'a'
    ensures DetectProvider(src) == OtherAnalytics
  {
    MissingCharNotContained(src, "google-analytics.com", 7);
    MissingCharNotContained(src, "googletagmanager.com", 7);
    MissingCharNotContained(src, "umami.is", 2);
    MissingCharNotContained(src, "plausible.io", 2);
    MissingCharNotContained(src, "simpleanalytics.com", 6);
    MissingCharNotContained(src, "hotjar.com", 4);
  }

  /** An allow-listed FullStory script gets the generic label. */
  lemma FullStoryLabel()
    ensures Label(DetectProvider("https://fullstory.com/s/fs.js")) == "Analytics"
  {
    var src := "https://fullstory.com/s/fs.js";
    assert forall i :: 0 <= i < |src| ==> src[i] != 'a';
    NoLetterAIsOther(src);
  }
}
