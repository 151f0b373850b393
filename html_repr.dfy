/**
  The HTML representation of result-network objects: an escaped header, a
  fixed style block, then one collapsible `<details>` section per (name,
  content) pair. A section's content is a list of values or a dictionary of
  key/value pairs; any other content is refused with a ValueError.
  Values, keys and section names enter the HTML unescaped, as the text
  Python's f-string formatting gives them; only the header is escaped.
*/
module HtmlRepr {
  import opened Results

  // ---------------------------------------------------------------------
  // Escaping of the header (html.escape with quote=True)
  // ---------------------------------------------------------------------

  /** The characters that markup gives a meaning to, apart from '&'. */
  predicate IsMarkupChar(c: char) {
    c == '<' || c == '>' || c == '"' || c == '\''
  }

  function EscapeChar(c: char): (r: string)
    ensures |r| > 0
    ensures forall i :: 0 <= i < |r| ==> !IsMarkupChar(r[i])
  {
    if c == '&' then "&amp;"
    else if c == '<' then "&lt;"
    else if c == '>' then "&gt;"
    else if c == '"' then "&quot;"
    else if c == '\'' then "&#x27;"
    else [c]
  }

  /** `html.escape`: replaces & < > " ' by their character references. */
  function Escape(s: string): (r: string)
    ensures |r| >= |s|
    ensures forall i :: 0 <= i < |r| ==> !IsMarkupChar(r[i])
  {
    if s == [] then "" else EscapeChar(s[0]) + Escape(s[1..])
  }

  /** Reads the five character references back; any other text is kept. */
  function Unescape(s: string): string
    decreases |s|
  {
    if s == [] then ""
    else if s[0] != '&' then [s[0]] + Unescape(s[1..])
    else if |s| >= 5 && s[..5] == "&amp;" then "&" + Unescape(s[5..])
    else if |s| >= 4 && s[..4] == "&lt;" then "<" + Unescape(s[4..])
    else if |s| >= 4 && s[..4] == "&gt;" then ">" + Unescape(s[4..])
    else if |s| >= 6 && s[..6] == "&quot;" then "\"" + Unescape(s[6..])
    else if |s| >= 6 && s[..6] == "&#x27;" then "'" + Unescape(s[6..])
    else [s[0]] + Unescape(s[1..])
  }

  lemma {:induction false} UnescapeChar(c: char, t: string)
    ensures Unescape(EscapeChar(c) + t) == [c] + Unescape(t)
  {
    var e := EscapeChar(c);
    var s := e + t;
    assert s[..|e|] == e && s[|e|..] == t;
    assert forall i :: 0 <= i < |e| ==> s[i] == e[i];
    if c == '&' {
    } else if c == '<' {
      assert s[1] == 'l' && s[2] == 't';
    } else if c == '>' {
      assert s[1] == 'g';
    } else if c == '"' {
      assert s[1] == 'q';
    } else if c == '\'' {
      assert s[1] == '#';
    } else {
      assert s[0] == c && s[1..] == t;
    }
  }

  /** Unescaping undoes escaping: the header can be read back from the page. */
  lemma {:induction false} EscapeRoundTrip(s: string)
    ensures Unescape(Escape(s)) == s
  {
    if s != [] {
      EscapeRoundTrip(s[1..]);
      UnescapeChar(s[0], Escape(s[1..]));
      assert [s[0]] + s[1..] == s;
    }
  }

  // ---------------------------------------------------------------------
  // The style block
  // ---------------------------------------------------------------------

  /** `_build_html_repr_section_style`: the CSS injected after the header,
      with the newlines and indentation of the triple-quoted literal. */
  const Style := "\n    <style>\n        ul {\n            margin: 0px;\n            padding: 0px;\n            padding-left: 2em;\n        }\n    </style>\n    "

  // ---------------------------------------------------------------------
  // Sections
  // ---------------------------------------------------------------------

  /** The content of a section: a list of values, a dictionary given by its
      items in insertion order, or anything else (given by its text). */
  datatype Content =
    | ListContent(values: seq<string>)
    | DictContent(items: seq<(string, string)>)
    | OtherContent(text: string)

  datatype Section = Section(name: string, content: Content)

  const SectionOpen := "<details><summary>"
  const SectionMiddle := "</summary><ul>"
  const SectionClose := "</ul></details>"

  function Item(text: string): string {
    "<li>" + text + "</li>"
  }

  /** The list items of a list section. */
  function Items(values: seq<string>): (r: string)
    ensures |r| >= 9 * |values|
  {
    if values == [] then "" else Item(values[0]) + Items(values[1..])
  }

  /** The text of one dictionary entry. */
  function KeyValueText(item: (string, string)): string {
    item.0 + ": " + item.1
  }

  /** The list items of a dictionary section. */
  function DictItems(items: seq<(string, string)>): (r: string)
    ensures |r| >= 11 * |items|
  {
    if items == [] then "" else Item(KeyValueText(items[0])) + DictItems(items[1..])
  }

  /** The HTML of `_build_html_repr_section_from_list`. */
  function ListSection(name: string, values: seq<string>): string {
    SectionOpen + name + SectionMiddle + Items(values) + SectionClose
  }

  /** The HTML of `_build_html_repr_section_from_dict`. */
  function DictSection(name: string, items: seq<(string, string)>): string {
    SectionOpen + name + SectionMiddle + DictItems(items) + SectionClose
  }

  lemma {:induction false} ItemsAppend(a: seq<string>, b: seq<string>)
    ensures Items(a + b) == Items(a) + Items(b)
  {
    if a == [] {
      assert a + b == b;
    } else {
      assert (a + b)[0] == a[0] && (a + b)[1..] == a[1..] + b;
      ItemsAppend(a[1..], b);
    }
  }

  lemma {:induction false} DictItemsAppend(a: seq<(string, string)>, b: seq<(string, string)>)
    ensures DictItems(a + b) == DictItems(a) + DictItems(b)
  {
    if a == [] {
      assert a + b == b;
    } else {
      assert (a + b)[0] == a[0] && (a + b)[1..] == a[1..] + b;
      DictItemsAppend(a[1..], b);
    }
  }

  /** The three opening appends of a section builder give the section head. */
  lemma SectionHead(name: string)
    ensures "<details>" + "<summary>" + name + "</summary>" + "<ul>" == SectionOpen + name + SectionMiddle
  {
  }

  /** The two closing appends of a section builder give the section close. */
  lemma SectionTail(body: string)
    ensures body + "</ul>" + "</details>" == body + SectionClose
  {
  }

  /** The text appended for one value is that value's item. */
  lemma ValueLine(before: string, value: string)
    ensures before + "<li>" + value + "</li>" == before + Item(value)
  {
  }

  /** The text appended for one dictionary entry is the item of its "key: value" text. */
  lemma KeyValueLine(before: string, key: string, value: string)
    ensures before + "<li>" + key + ": " + value + "</li>" == before + Item(KeyValueText((key, value)))
  {
  }

  /** Builds a list section by appending one `<li>` per value. */
  method BuildSectionFromList(name: string, values: seq<string>) returns (section: string)
    ensures section == ListSection(name, values)
  {
    section := "<details>";
    section := section + "<summary>" + name + "</summary>";
    section := section + "<ul>";
    SectionHead(name);
    for i := 0 to |values|
      invariant section == SectionOpen + name + SectionMiddle + Items(values[..i])
    {
      ItemsAppend(values[..i], [values[i]]);
      assert values[..i + 1] == values[..i] + [values[i]];
      assert Items([values[i]]) == Item(values[i]) + "";
      ValueLine(section, values[i]);
      section := section + "<li>" + values[i] + "</li>";
    }
    assert values[..|values|] == values;
    SectionTail(section);
    section := section + "</ul>";
    section := section + "</details>";
  }

  /** Builds a dictionary section by appending one `<li>key: value</li>` per entry. */
  method BuildSectionFromDict(name: string, items: seq<(string, string)>) returns (section: string)
    ensures section == DictSection(name, items)
  {
    section := "<details>";
    section := section + "<summary>" + name + "</summary>";
    section := section + "<ul>";
    SectionHead(name);
    for i := 0 to |items|
      invariant section == SectionOpen + name + SectionMiddle + DictItems(items[..i])
    {
      DictItemsAppend(items[..i], [items[i]]);
      assert items[..i + 1] == items[..i] + [items[i]];
      assert DictItems([items[i]]) == Item(KeyValueText(items[i])) + "";
      var (key, value) := items[i];
      KeyValueLine(section, key, value);
      section := section + "<li>" + key + ": " + value + "</li>";
    }
    assert items[..|items|] == items;
    SectionTail(section);
    section := section + "</ul>";
    section := section + "</details>";
  }

  /** The texts a dictionary section lists, one per entry. */
  function KeyValueTexts(items: seq<(string, string)>): (r: seq<string>)
    ensures |r| == |items|
  {
    seq(|items|, i requires 0 <= i < |items| => KeyValueText(items[i]))
  }

  /** A dictionary section is the list section of its "key: value" texts. */
  lemma {:induction false} DictSectionIsListSection(name: string, items: seq<(string, string)>)
    ensures DictItems(items) == Items(KeyValueTexts(items))
    ensures DictSection(name, items) == ListSection(name, KeyValueTexts(items))
  {
    if items != [] {
      DictSectionIsListSection(name, items[1..]);
      assert KeyValueTexts(items)[1..] == KeyValueTexts(items[1..]);
    }
  }

  // ---------------------------------------------------------------------
  // Reading a list section back
  // ---------------------------------------------------------------------

  /** Index of the first '<' in `s`, or |s| when there is none. */
  function TextEnd(s: string): (k: nat)
    ensures k <= |s|
    ensures forall i :: 0 <= i < k ==> s[i] != '<'
    ensures k < |s| ==> s[k] == '<'
  {
    if s == [] || s[0] == '<' then 0 else 1 + TextEnd(s[1..])
  }

  /** Reads `<li>text</li>` items from the front of `s`; returns their texts
      and what follows them. */
  function ParseItems(s: string): (r: (seq<string>, string))
    decreases |s|
  {
    if |s| >= 4 && s[..4] == "<li>" then
      var body := s[4..];
      var k := TextEnd(body);
      var after := body[k..];
      if |after| >= 5 && after[..5] == "</li>" then
        var (values, rest) := ParseItems(after[5..]);
        ([body[..k]] + values, rest)
      else ([], s)
    else ([], s)
  }

  /** Reads a section back into its name and its list texts. */
  function ParseSection(s: string): Option<(string, seq<string>)> {
    if |s| >= |SectionOpen| && s[..|SectionOpen|] == SectionOpen then
      var body := s[|SectionOpen|..];
      var k := TextEnd(body);
      var after := body[k..];
      if |after| >= |SectionMiddle| && after[..|SectionMiddle|] == SectionMiddle then
        var (values, rest) := ParseItems(after[|SectionMiddle|..]);
        if rest == SectionClose then Some((body[..k], values)) else None
      else None
    else None
  }

  lemma {:induction false} TextEndOf(t: string, u: string)
    requires '<' !in t && |u| > 0 && u[0] == '<'
    ensures TextEnd(t + u) == |t|
    decreases |t|
  {
    if t != [] {
      assert (t + u)[1..] == t[1..] + u;
      TextEndOf(t[1..], u);
    } else {
      assert t + u == u;
    }
  }

  /** One item whose text holds no '<' is read, then reading goes on after it. */
  lemma {:induction false} ParseItemsStep(v: string, rest: string)
    requires '<' !in v
    ensures ParseItems(Item(v) + rest) == ([v] + ParseItems(rest).0, ParseItems(rest).1)
  {
    var s := Item(v) + rest;
    assert s == "<li>" + (v + ("</li>" + rest));
    assert s[..4] == "<li>";
    var body := s[4..];
    assert body == v + ("</li>" + rest);
    TextEndOf(v, "</li>" + rest);
    assert body[..|v|] == v;
    var after := body[|v|..];
    assert after == "</li>" + rest;
    assert after[..5] == "</li>";
    assert after[5..] == rest;
  }

  /** Items whose texts hold no '<' are read back, up to text that does not open an item. */
  lemma {:induction false} ParseItemsRoundTrip(values: seq<string>, tail: string)
    requires forall i :: 0 <= i < |values| ==> '<' !in values[i]
    requires !(|tail| >= 4 && tail[..4] == "<li>")
    ensures ParseItems(Items(values) + tail) == (values, tail)
  {
    if values == [] {
      assert Items(values) + tail == tail;
    } else {
      var v := values[0];
      var more := Items(values[1..]) + tail;
      assert Items(values) + tail == Item(v) + more;
      ParseItemsRoundTrip(values[1..], tail);
      ParseItemsStep(v, more);
      assert [v] + values[1..] == values;
    }
  }

  /** A section head whose name holds no '<' is read, then the items after it. */
  lemma {:induction false} ParseSectionHead(name: string, x: string)
    requires '<' !in name
    ensures ParseSection(SectionOpen + name + SectionMiddle + x) ==
      if ParseItems(x).1 == SectionClose then Some((name, ParseItems(x).0)) else None
  {
    var s := SectionOpen + name + SectionMiddle + x;
    var tail := SectionMiddle + x;
    assert s == SectionOpen + (name + tail);
    assert s[..|SectionOpen|] == SectionOpen;
    var body := s[|SectionOpen|..];
    assert body == name + tail;
    TextEndOf(name, tail);
    assert body[..|name|] == name;
    var after := body[|name|..];
    assert after == tail;
    assert after[..|SectionMiddle|] == SectionMiddle;
    assert after[|SectionMiddle|..] == x;
  }

  lemma CloseOpensNoItem()
    ensures !(|SectionClose| >= 4 && SectionClose[..4] == "<li>")
  {
    assert SectionClose[1] == '/';
  }

  lemma ListSectionShape(name: string, values: seq<string>)
    ensures ListSection(name, values) == SectionOpen + name + SectionMiddle + (Items(values) + SectionClose)
  {
  }

  /** A list section whose name and values hold no '<' is read back exactly. */
  lemma {:induction false} ListSectionRoundTrip(name: string, values: seq<string>)
    requires '<' !in name
    requires forall i :: 0 <= i < |values| ==> '<' !in values[i]
    ensures ParseSection(ListSection(name, values)) == Some((name, values))
  {
    var x := Items(values) + SectionClose;
    ListSectionShape(name, values);
    ParseSectionHead(name, x);
    CloseOpensNoItem();
    ParseItemsRoundTrip(values, SectionClose);
  }

  /** A dictionary section is read back as its "key: value" texts. */
  lemma {:induction false} DictSectionRoundTrip(name: string, items: seq<(string, string)>)
    requires '<' !in name
    requires forall i :: 0 <= i < |items| ==> '<' !in items[i].0 && '<' !in items[i].1
    ensures ParseSection(DictSection(name, items)) == Some((name, KeyValueTexts(items)))
  {
    DictSectionIsListSection(name, items);
    var texts := KeyValueTexts(items);
    forall i | 0 <= i < |texts| ensures '<' !in texts[i] {
      assert texts[i] == items[i].0 + (": " + items[i].1);
    }
    ListSectionRoundTrip(name, texts);
  }

  // ---------------------------------------------------------------------
  // The whole representation
  // ---------------------------------------------------------------------

  /** The message of the ValueError raised for unknown content. */
  function UnknownContentMessage(text: string): string {
    "Unknown section content type: " + text
  }

  predicate Known(c: Content) {
    c.ListContent? || c.DictContent?
  }

  /** One section's HTML, or the error for content that is neither a list nor a dictionary. */
  function RenderSection(section: Section): (r: Result<string, string>)
    ensures r.Ok? <==> Known(section.content)
  {
    match section.content
    case ListContent(values) => Ok(ListSection(section.name, values))
    case DictContent(items) => Ok(DictSection(section.name, items))
    case OtherContent(text) => Err(UnknownContentMessage(text))
  }

  /** The sections' HTML in order; the first unknown content stops it. */
  function RenderSections(sections: seq<Section>): Result<string, string> {
    if sections == [] then Ok("")
    else match RenderSection(sections[0])
      case Err(e) => Err(e)
      case Ok(first) =>
        match RenderSections(sections[1..])
        case Err(e) => Err(e)
        case Ok(rest) => Ok(first + rest)
  }

  /** Puts `prefix` in front of a successful result. */
  function Prepend(prefix: string, r: Result<string, string>): Result<string, string> {
    match r
    case Ok(text) => Ok(prefix + text)
    case Err(e) => Err(e)
  }

  lemma {:induction false} PrependTwice(a: string, b: string, r: Result<string, string>)
    ensures Prepend(a, Prepend(b, r)) == Prepend(a + b, r)
  {
    if r.Ok? {
      assert a + (b + r.value) == (a + b) + r.value;
    }
  }

  /** A nonempty list of sections whose first section is known renders as that section's HTML, then the rest. */
  lemma {:induction false} RenderSectionsCons(sections: seq<Section>)
    requires |sections| > 0 && Known(sections[0].content)
    ensures RenderSections(sections) == Prepend(RenderSection(sections[0]).value, RenderSections(sections[1..]))
  {
  }

  /** `build_html_repr_from_sections` as a value. */
  function HtmlRepr(header: string, sections: seq<Section>): (r: Result<string, string>)
    ensures r.Ok? <==> forall i :: 0 <= i < |sections| ==> Known(sections[i].content)
    ensures r.Err? ==> r == RenderSections(sections)
  {
    RenderSectionsOkIff(sections);
    Prepend(Escape(header) + Style, RenderSections(sections))
  }

  /** Builds the representation section by section, failing at the first unknown content. */
  method BuildHtmlReprFromSections(header: string, sections: seq<Section>) returns (r: Result<string, string>)
    ensures r == HtmlRepr(header, sections)
  {
    var repr := Escape(header);
    repr := repr + Style;
    assert sections[0..] == sections;
    for i := 0 to |sections|
      invariant HtmlRepr(header, sections) == Prepend(repr, RenderSections(sections[i..]))
    {
      assert sections[i..][0] == sections[i] && sections[i..][1..] == sections[i + 1..];
      var section: string;
      ghost var before := repr;
      match sections[i].content {
        case ListContent(values) =>
          section := BuildSectionFromList(sections[i].name, values);
        case DictContent(items) =>
          section := BuildSectionFromDict(sections[i].name, items);
        case OtherContent(text) =>
          return Err(UnknownContentMessage(text));
      }
      RenderSectionsCons(sections[i..]);
      assert RenderSection(sections[i]) == Ok(section);
      PrependTwice(before, section, RenderSections(sections[i + 1..]));
      repr := repr + section;
    }
    assert sections[|sections|..] == [];
    assert repr + "" == repr;
    return Ok(repr);
  }

  /** The representation exists exactly when every section is a list or a dictionary. */
  lemma {:induction false} RenderSectionsOkIff(sections: seq<Section>)
    ensures RenderSections(sections).Ok? <==> forall i :: 0 <= i < |sections| ==> Known(sections[i].content)
  {
    if sections != [] {
      RenderSectionsOkIff(sections[1..]);
      if RenderSections(sections).Ok? {
        forall i | 0 < i < |sections| ensures Known(sections[i].content) {
          assert sections[1..][i - 1] == sections[i];
        }
      }
    }
  }

  /** The error reported is the one of the first section with unknown content. */
  lemma {:induction false} RenderSectionsFirstError(sections: seq<Section>)
    requires RenderSections(sections).Err?
    ensures exists k :: (0 <= k < |sections|
      && sections[k].content.OtherContent?
      && RenderSections(sections).error == UnknownContentMessage(sections[k].content.text)
      && forall i :: 0 <= i < k ==> Known(sections[i].content))
  {
    if Known(sections[0].content) {
      RenderSectionsFirstError(sections[1..]);
      var k :| 0 <= k < |sections[1..]|
        && sections[1..][k].content.OtherContent?
        && RenderSections(sections[1..]).error == UnknownContentMessage(sections[1..][k].content.text)
        && forall i :: 0 <= i < k ==> Known(sections[1..][i].content);
      assert sections[k + 1] == sections[1..][k];
      forall i | 0 <= i < k + 1 ensures Known(sections[i].content) {
        if i > 0 {
          assert sections[i] == sections[1..][i - 1];
        }
      }
    }
  }

  /** The sections of a concatenation come in order: the HTML of the first
      part, then that of the second; an error in the first part wins. */
  lemma {:induction false} RenderSectionsAppend(a: seq<Section>, b: seq<Section>)
    ensures RenderSections(a).Err? ==> RenderSections(a + b) == RenderSections(a)
    ensures RenderSections(a).Ok? ==> RenderSections(a + b) == Prepend(RenderSections(a).value, RenderSections(b))
  {
    if a == [] {
      assert a + b == b;
      assert Prepend("", RenderSections(b)) == RenderSections(b) by {
        if RenderSections(b).Ok? {
          assert "" + RenderSections(b).value == RenderSections(b).value;
        }
      }
    } else {
      assert (a + b)[0] == a[0] && (a + b)[1..] == a[1..] + b;
      RenderSectionsAppend(a[1..], b);
      if Known(a[0].content) && RenderSections(a[1..]).Ok? {
        var first := RenderSection(a[0]).value;
        RenderSectionsCons(a + b);
        PrependTwice(first, RenderSections(a[1..]).value, RenderSections(b));
      }
    }
  }

  /** A successful representation starts with the escaped header, which holds
      no markup character and reads back as the header, followed by the style. */
  lemma {:induction false} HtmlReprHeader(header: string, sections: seq<Section>)
    requires HtmlRepr(header, sections).Ok?
    ensures var page := HtmlRepr(header, sections).value;
      var e := Escape(header);
      && |page| >= |e| + |Style|
      && page[..|e|] == e
      && page[|e|..|e| + |Style|] == Style
      && Unescape(page[..|e|]) == header
  {
    var e := Escape(header);
    var page := HtmlRepr(header, sections).value;
    assert page == e + Style + RenderSections(sections).value;
    assert page[..|e|] == e;
    assert page[|e|..|e| + |Style|] == Style;
    EscapeRoundTrip(header);
  }
}
