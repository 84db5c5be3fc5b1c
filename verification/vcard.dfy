/** `generateVCard` of `composables/useCard.js`: a vCard 3.0 text (RFC 2426)
    built from an array of candidate lines, of which the empty ones are
    dropped before the rest are joined with line feeds. */
module VCard {
  import opened Wrappers
  import opened Strings
  import opened JsValues
  import opened Records

  const Begin: string := "BEGIN:VCARD"
  const Version: string := "VERSION:3.0"
  const End: string := "END:VCARD"
  const LineFeed: char := '\n'

  /** The FN line (section 3.1.1 of RFC 2426): first and last name with one
      space between them.  Unset names are interpolated as JavaScript does. */
  function FormattedName(c: Card): (r: string)
    ensures StartsWith(r, "FN:")
  {
    "FN:" + Interp(c.firstName) + " " + Interp(c.lastName)
  }

  /** The N line (section 3.1.2 of RFC 2426): family name, given name and
      three empty components. */
  function StructuredName(c: Card): (r: string)
    ensures StartsWith(r, "N:")
  {
    "N:" + Interp(c.lastName) + ";" + Interp(c.firstName) + ";;;"
  }

  /** `field ? prefix + field : ''`. */
  function OptionalLine(prefix: string, field: JsString): (r: string)
    ensures Truthy(field) ==> r == prefix + field.s
    ensures !Truthy(field) ==> r == []
  {
    if Truthy(field) then prefix + field.s else []
  }

  /** The optional properties in output order, each with the field it prints. */
  function OptionalFields(c: Card): seq<(string, JsString)> {
    [("ORG:", c.company), ("TITLE:", c.title), ("EMAIL:", c.email),
     ("TEL;TYPE=CELL:", c.mobile), ("TEL;TYPE=WORK:", c.office),
     ("URL:", c.website), ("NOTE:", c.note)]
  }

  /** The candidate line of each optional property, empty when unset. */
  function OptionalCandidates(fields: seq<(string, JsString)>): (r: seq<string>)
    ensures |r| == |fields|
  {
    seq(|fields|, i requires 0 <= i < |fields| => OptionalLine(fields[i].0, fields[i].1))
  }

  /** The array literal before `.filter(Boolean)`. */
  function Candidates(c: Card): seq<string> {
    [Begin, Version, FormattedName(c), StructuredName(c)] + OptionalCandidates(OptionalFields(c)) + [End]
  }

  /** `.filter(Boolean)` on an array of strings: the non-empty ones, in order. */
  function DropEmpty(lines: seq<string>): (r: seq<string>)
    ensures |r| <= |lines|
    decreases |lines|
  {
    if lines == [] then []
    else (if lines[0] == [] then [] else [lines[0]]) + DropEmpty(lines[1..])
  }

  /** The lines of the vCard. */
  function Lines(c: Card): seq<string> {
    DropEmpty(Candidates(c))
  }

  /** `generateVCard`: the text opens with BEGIN and VERSION and closes
      with END, whatever the card holds. */
  function GenerateVCard(c: Card): (r: string)
    ensures StartsWith(r, Begin + [LineFeed] + Version + [LineFeed])
    ensures EndsWith(r, [LineFeed] + End)
  {
    LinesShape(c);
    var lines := Lines(c);
    assert lines[0] == Begin && lines[1] == Version && lines[|lines| - 1] == End;
    JoinFrame(lines, LineFeed);
    Join(lines, LineFeed)
  }

  // ---------------------------------------------------------------------
  // Reference: which optional lines are printed

  /** The lines of the truthy optional fields, in order. */
  function PresentLines(fields: seq<(string, JsString)>): seq<string>
    decreases |fields|
  {
    if fields == [] then []
    else if Truthy(fields[0].1) then [fields[0].0 + fields[0].1.s] + PresentLines(fields[1..])
    else PresentLines(fields[1..])
  }

  /** How many of the fields are truthy. */
  function TruthyCount(fields: seq<(string, JsString)>): nat
    decreases |fields|
  {
    if fields == [] then 0
    else (if Truthy(fields[0].1) then 1 else 0) + TruthyCount(fields[1..])
  }

  lemma {:induction false} PresentLinesCount(fields: seq<(string, JsString)>)
    ensures |PresentLines(fields)| == TruthyCount(fields)
    decreases |fields|
  {
    if fields != [] {
      PresentLinesCount(fields[1..]);
    }
  }

  lemma {:induction false} DropEmptyAppend(a: seq<string>, b: seq<string>)
    ensures DropEmpty(a + b) == DropEmpty(a) + DropEmpty(b)
    decreases |a|
  {
    if a == [] {
      assert a + b == b;
    } else {
      assert (a + b)[1..] == a[1..] + b;
      DropEmptyAppend(a[1..], b);
    }
  }

  lemma {:induction false} DropEmptyKeepsFilled(a: seq<string>)
    requires forall k :: 0 <= k < |a| ==> a[k] != []
    ensures DropEmpty(a) == a
    decreases |a|
  {
    if a != [] {
      DropEmptyKeepsFilled(a[1..]);
    }
  }

  /** Filtering the optional candidates keeps exactly the truthy fields' lines. */
  lemma {:induction false} DropEmptyOptional(fields: seq<(string, JsString)>)
    requires forall k :: 0 <= k < |fields| ==> fields[k].0 != []
    ensures DropEmpty(OptionalCandidates(fields)) == PresentLines(fields)
    decreases |fields|
  {
    if fields != [] {
      var cs := OptionalCandidates(fields);
      assert cs[1..] == OptionalCandidates(fields[1..]);
      DropEmptyOptional(fields[1..]);
      assert cs[0] == [] <==> !Truthy(fields[0].1);
    }
  }

  /** The vCard is BEGIN, VERSION, FN and N, then the line of each truthy
      optional field in the fixed order, then END. */
  lemma LinesShape(c: Card)
    ensures Lines(c) == [Begin, Version, FormattedName(c), StructuredName(c)]
                        + PresentLines(OptionalFields(c)) + [End]
  {
    var head := [Begin, Version, FormattedName(c), StructuredName(c)];
    var fields := OptionalFields(c);
    DropEmptyAppend(head + OptionalCandidates(fields), [End]);
    DropEmptyAppend(head, OptionalCandidates(fields));
    DropEmptyKeepsFilled(head);
    DropEmptyKeepsFilled([End]);
    DropEmptyOptional(fields);
  }

  /** Five fixed lines plus one per truthy optional field. */
  lemma LineCount(c: Card)
    ensures |Lines(c)| == 5 + TruthyCount(OptionalFields(c))
  {
    LinesShape(c);
    PresentLinesCount(OptionalFields(c));
  }

  // ---------------------------------------------------------------------
  // Reading the text back

  /** The value has no line feed (an unset value prints as a word). */
  predicate NoLineFeed(v: JsString) {
    v.Str? ==> LineFeed !in v.s
  }

  /** None of the printed fields holds a line feed. */
  predicate SingleLineFields(c: Card) {
    && NoLineFeed(c.firstName) && NoLineFeed(c.lastName)
    && forall k :: 0 <= k < |OptionalFields(c)| ==> NoLineFeed(OptionalFields(c)[k].1)
  }

  lemma {:induction false} PresentLinesSingle(fields: seq<(string, JsString)>)
    requires forall k :: 0 <= k < |fields| ==> LineFeed !in fields[k].0 && NoLineFeed(fields[k].1)
    ensures NoneContains(PresentLines(fields), LineFeed)
    decreases |fields|
  {
    if fields != [] {
      PresentLinesSingle(fields[1..]);
      if Truthy(fields[0].1) {
        var line := fields[0].0 + fields[0].1.s;
        assert LineFeed !in line;
        assert NoneContains([line], LineFeed) by {
          forall k, i | 0 <= k < 1 && 0 <= i < |[line][k]| ensures [line][k][i] != LineFeed {
            assert [line][k][i] in line;
          }
        }
        NoneContainsAppend([line], PresentLines(fields[1..]), LineFeed);
      }
    }
  }

  /** The four leading lines are single lines when both names are. */
  lemma FixedLinesSingle(c: Card)
    requires NoLineFeed(c.firstName) && NoLineFeed(c.lastName)
    ensures NoneContains([Begin, Version, FormattedName(c), StructuredName(c)], LineFeed)
  {
    var head := [Begin, Version, FormattedName(c), StructuredName(c)];
    assert LineFeed !in Interp(c.firstName) && LineFeed !in Interp(c.lastName);
    forall k, i | 0 <= k < |head| && 0 <= i < |head[k]| ensures head[k][i] != LineFeed {
      assert head[k][i] in head[k];
    }
  }

  /** With single-line fields, no line of the vCard holds a line feed. */
  lemma LinesSingle(c: Card)
    requires SingleLineFields(c)
    ensures NoneContains(Lines(c), LineFeed)
  {
    LinesShape(c);
    var head := [Begin, Version, FormattedName(c), StructuredName(c)];
    var present := PresentLines(OptionalFields(c));
    FixedLinesSingle(c);
    PresentLinesSingle(OptionalFields(c));
    assert NoneContains([End], LineFeed);
    NoneContainsAppend(head, present, LineFeed);
    NoneContainsAppend(head + present, [End], LineFeed);
  }

  /** With single-line fields, splitting the text on line feeds gives back
      exactly its lines: each field occupies one line of its own. */
  lemma SplitRecoversLines(c: Card)
    requires SingleLineFields(c)
    ensures Split(GenerateVCard(c), LineFeed) == Lines(c)
  {
    LinesSingle(c);
    LineCount(c);
    SplitJoin(Lines(c), LineFeed);
  }

  /** The N line carries the five components of section 3.1.2 of RFC 2426:
      splitting its value on `;` yields family name, given name and three
      empty components, whenever neither name contains a `;`. */
  lemma StructuredNameComponents(c: Card)
    requires ';' !in Interp(c.firstName) && ';' !in Interp(c.lastName)
    ensures Split(StructuredName(c)[2..], ';') == [Interp(c.lastName), Interp(c.firstName), [], [], []]
  {
    var parts := [Interp(c.lastName), Interp(c.firstName), [], [], []];
    StructuredNameJoin(c);
    assert NoneContains(parts, ';') by {
      forall k, i | 0 <= k < |parts| && 0 <= i < |parts[k]| ensures parts[k][i] != ';' {
        assert parts[k][i] in parts[k];
      }
    }
    SplitJoin(parts, ';');
  }

  /** The FN value reads back as the two names: when the first name has no
      space, the first space of the value follows it, and what comes after
      that space is the last name, whatever it contains. */
  lemma FormattedNameParts(c: Card)
    requires ' ' !in Interp(c.firstName)
    ensures var value := FormattedName(c)[3..];
      var k := |Interp(c.firstName)|;
      && FindChar(value, 0, ' ') == Some(k)
      && value[..k] == Interp(c.firstName)
      && value[k + 1..] == Interp(c.lastName)
  {
    var first, last := Interp(c.firstName), Interp(c.lastName);
    var value := FormattedName(c)[3..];
    assert value == first + " " + last;
    assert NoCharIn(value, 0, |first|, ' ') by {
      forall k | 0 <= k < |first| ensures value[k] != ' ' {
        assert value[k] == first[k];
        assert first[k] in first;
      }
    }
    assert value[|first|] == ' ';
    assert FindChar(value, 0, ' ') == Some(|first|);
  }

  /** The value of the N line is its five components joined with `;`. */
  lemma StructuredNameJoin(c: Card)
    ensures StructuredName(c)[2..] == Join([Interp(c.lastName), Interp(c.firstName), [], [], []], ';')
  {
    var empty: string := [];
    assert Join([empty, empty], ';') == ";";
    assert Join([empty, empty, empty], ';') == ";;";
    assert Join([Interp(c.firstName), empty, empty, empty], ';') == Interp(c.firstName) + ";;;";
  }
}
