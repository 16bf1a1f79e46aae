/** Matching `If-None-Match` against a weak entity tag (sections 8.8.3.2 and 13.1.2 of RFC 9110). */
module EntityTags {
  import opened Text

  function RemoveWeak(tag: string): string {
    if "W/" <= tag then tag[2..] else tag
  }

  /** `_etag_matches`: the header is split at every comma. */
  predicate EtagMatches(ifNoneMatch: string, etag: string) {
    || Strip(ifNoneMatch) == "*"
    || RemoveWeak(etag) in (set part | part in Split(ifNoneMatch, ',') :: RemoveWeak(Strip(part)))
  }

  // ---------------------------------------------------------------------------
  // The header as the standard defines it
  // ---------------------------------------------------------------------------

  datatype EntityTag = EntityTag(weak: bool, value: string)

  /** One element of the list with the optional whitespace around it. */
  datatype Item = Item(lead: string, tag: EntityTag, trail: string)

  function Quoted(text: string): string {
    "\"" + text + "\""
  }

  function Render(tag: EntityTag): string {
    (if tag.weak then "W/" else "") + Quoted(tag.value)
  }

  function RenderItem(item: Item): string {
    item.lead + Render(item.tag) + item.trail
  }

  function Header(items: seq<Item>): string
    requires items != []
  {
    if |items| == 1 then RenderItem(items[0]) else RenderItem(items[0]) + "," + Header(items[1..])
  }

  /** Opaque tags hold no quote; they may hold commas. */
  ghost predicate WellFormedItem(item: Item) {
    Blank(item.lead) && Blank(item.trail) && '"' !in item.tag.value
  }

  // ---------------------------------------------------------------------------
  // Lemmas about the string operations
  // ---------------------------------------------------------------------------

  function Quotes(s: string): nat {
    if s == [] then 0 else (if s[0] == '"' then 1 else 0) + Quotes(s[1..])
  }

  lemma {:induction false} QuotesConcat(a: string, b: string)
    ensures Quotes(a + b) == Quotes(a) + Quotes(b)
  {
    if a == [] {
      assert a + b == b;
    } else {
      assert (a + b)[1..] == a[1..] + b;
      QuotesConcat(a[1..], b);
    }
  }

  lemma {:induction false} NoQuotes(s: string)
    requires '"' !in s
    ensures Quotes(s) == 0
  {
    if s != [] {
      NoQuotes(s[1..]);
    }
  }

  lemma {:induction false} QuotesStripLeft(s: string)
    ensures Quotes(StripLeft(s)) == Quotes(s)
  {
    if s != [] && IsSpace(s[0]) {
      QuotesStripLeft(s[1..]);
    }
  }

  lemma {:induction false} QuotesStripRight(s: string)
    ensures Quotes(StripRight(s)) == Quotes(s)
  {
    if s != [] && IsSpace(s[|s| - 1]) {
      var front := s[..|s| - 1];
      QuotesStripRight(front);
      assert s == front + [s[|s| - 1]];
      QuotesConcat(front, [s[|s| - 1]]);
      assert Quotes([s[|s| - 1]]) == 0;
    }
  }

  lemma QuotesStrip(s: string)
    ensures Quotes(Strip(s)) == Quotes(s)
  {
    QuotesStripLeft(s);
    QuotesStripRight(StripLeft(s));
  }

  lemma QuotesRemoveWeak(s: string)
    ensures Quotes(RemoveWeak(s)) == Quotes(s)
  {
    if "W/" <= s {
      assert s == "W/" + s[2..];
      QuotesConcat("W/", s[2..]);
      NoQuotes("W/");
    }
  }

  lemma {:induction false} SplitConcat(a: string, b: string, separator: char)
    ensures Split(a + [separator] + b, separator) == Split(a, separator) + Split(b, separator)
  {
    if a == [] {
      assert (a + [separator] + b)[1..] == b;
    } else {
      assert (a + [separator] + b)[1..] == a[1..] + [separator] + b;
      SplitConcat(a[1..], b, separator);
    }
  }

  lemma {:induction false} SplitWithout(s: string, separator: char)
    requires separator !in s
    ensures Split(s, separator) == [s]
  {
    if s != [] {
      SplitWithout(s[1..], separator);
      assert [s[0]] + s[1..] == s;
    }
  }

  lemma {:induction false} PartQuotes(s: string, separator: char, part: string)
    requires part in Split(s, separator)
    ensures Quotes(part) <= Quotes(s)
  {
    if s != [] {
      var rest := Split(s[1..], separator);
      if s[0] == separator {
        if part in rest {
          PartQuotes(s[1..], separator, part);
        }
      } else if part == [s[0]] + rest[0] {
        PartQuotes(s[1..], separator, rest[0]);
        QuotesConcat([s[0]], rest[0]);
      } else {
        PartQuotes(s[1..], separator, part);
      }
    }
  }

  // ---------------------------------------------------------------------------
  // One list element
  // ---------------------------------------------------------------------------

  /** Some part of the text, stripped and made strong, is the quoted tag. */
  ghost predicate Hits(text: string, target: string) {
    exists part :: part in Split(text, ',') && RemoveWeak(Strip(part)) == target
  }

  lemma RenderQuotes(item: Item)
    requires WellFormedItem(item)
    ensures Quotes(RenderItem(item)) == 2
  {
    NoQuotes(item.lead);
    NoQuotes(item.trail);
    NoQuotes(item.tag.value);
    var mark := if item.tag.weak then "W/" else "";
    NoQuotes(mark);
    QuotesConcat("\"", item.tag.value);
    QuotesConcat("\"" + item.tag.value, "\"");
    QuotesConcat(mark, Quoted(item.tag.value));
    QuotesConcat(item.lead, Render(item.tag));
    QuotesConcat(item.lead + Render(item.tag), item.trail);
  }

  lemma RemoveWeakRender(tag: EntityTag)
    ensures RemoveWeak(Render(tag)) == Quoted(tag.value)
  {
    assert Quoted(tag.value)[0] == '"';
    if tag.weak {
      assert Render(tag)[..2] == "W/";
      assert Render(tag)[2..] == Quoted(tag.value);
    } else {
      assert Render(tag) == Quoted(tag.value);
    }
  }

  lemma RenderEdges(tag: EntityTag)
    ensures Render(tag) != [] && !IsSpace(Render(tag)[0]) && !IsSpace(Render(tag)[|Render(tag)| - 1])
  {
    assert Render(tag)[0] == (if tag.weak then 'W' else '"');
    assert Render(tag)[|Render(tag)| - 1] == '"';
  }

  lemma StripItem(item: Item)
    requires WellFormedItem(item)
    ensures Strip(RenderItem(item)) == Render(item.tag)
  {
    var tag := Render(item.tag);
    RenderEdges(item.tag);
    assert item.lead + tag + item.trail == item.lead + (tag + item.trail);
    assert (tag + item.trail)[0] == tag[0];
    StripLeftBlank(item.lead, tag + item.trail);
    StripRightBlank(tag, item.trail);
  }

  /** Without a comma inside, the element is one part. */
  lemma PlainItemHits(item: Item, target: string)
    requires WellFormedItem(item) && ',' !in item.tag.value
    ensures Hits(RenderItem(item), target) <==> Quoted(item.tag.value) == target
  {
    var text := RenderItem(item);
    assert ',' !in item.lead && ',' !in item.trail;
    assert ',' !in Render(item.tag);
    assert ',' !in text;
    SplitWithout(text, ',');
    StripItem(item);
    RemoveWeakRender(item.tag);
    assert text in Split(text, ',');
  }

  lemma FewQuotesMiss(text: string, target: string)
    requires Quotes(text) < Quotes(target)
    ensures !Hits(text, target)
  {
    forall part | part in Split(text, ',') ensures RemoveWeak(Strip(part)) != target {
      PartQuotes(text, ',', part);
      QuotesStrip(part);
      QuotesRemoveWeak(Strip(part));
    }
  }

  lemma HitsConcat(a: string, b: string, target: string)
    ensures Hits(a + "," + b, target) <==> Hits(a, target) || Hits(b, target)
  {
    SplitConcat(a, b, ',');
    var parts := Split(a, ',') + Split(b, ',');
    assert forall part :: part in parts <==> part in Split(a, ',') || part in Split(b, ',');
  }

  lemma OneQuote(before: string, after: string)
    requires '"' !in before && '"' !in after
    ensures Quotes(before + "\"" + after) == 1
  {
    NoQuotes(before);
    NoQuotes(after);
    QuotesConcat(before, "\"");
    QuotesConcat(before + "\"", after);
  }

  /** A tag torn apart at an inner comma has its two quotes in different parts, and matches nothing. */
  lemma TornItemMisses(item: Item, target: string)
    requires WellFormedItem(item) && ',' in item.tag.value && Quotes(target) == 2
    ensures !Hits(RenderItem(item), target)
  {
    var o, before := item.tag.value, item.lead + (if item.tag.weak then "W/" else "");
    var k :| 0 <= k < |o| && o[k] == ',';
    var left, right := before + "\"" + o[..k], o[k + 1..] + "\"" + item.trail;
    TornItemText(item, k);
    OneQuote(before, o[..k]);
    OneQuote(o[k + 1..], item.trail);
    HitsConcat(left, right, target);
    FewQuotesMiss(left, target);
    FewQuotesMiss(right, target);
  }

  lemma TornItemText(item: Item, k: nat)
    requires k < |item.tag.value| && item.tag.value[k] == ','
    ensures RenderItem(item)
         == item.lead + (if item.tag.weak then "W/" else "") + "\"" + item.tag.value[..k] + ","
          + (item.tag.value[k + 1..] + "\"" + item.trail)
  {
    var o := item.tag.value;
    assert o == o[..k] + "," + o[k + 1..];
  }

  // ---------------------------------------------------------------------------
  // The whole header
  // ---------------------------------------------------------------------------

  lemma {:induction false} HeaderHits(items: seq<Item>, target: string)
    requires items != [] && forall i :: 0 <= i < |items| ==> WellFormedItem(items[i])
    requires ',' !in target && Quotes(target) == 2
    ensures Hits(Header(items), target) <==> exists i :: 0 <= i < |items| && Quoted(items[i].tag.value) == target
  {
    var item := items[0];
    if ',' in item.tag.value {
      TornItemMisses(item, target);
      assert ',' in Quoted(item.tag.value);
    } else {
      PlainItemHits(item, target);
    }
    assert Hits(RenderItem(item), target) <==> Quoted(item.tag.value) == target;
    if |items| > 1 {
      HeaderHits(items[1..], target);
      HitsConcat(RenderItem(item), Header(items[1..]), target);
      if exists i :: 0 <= i < |items| && Quoted(items[i].tag.value) == target {
        var i :| 0 <= i < |items| && Quoted(items[i].tag.value) == target;
        assert i > 0 ==> items[1..][i - 1] == items[i];
      }
      if exists i :: 0 <= i < |items| - 1 && Quoted(items[1..][i].tag.value) == target {
        var i :| 0 <= i < |items| - 1 && Quoted(items[1..][i].tag.value) == target;
        assert items[i + 1] == items[1..][i];
      }
    }
  }

  lemma {:induction false} HeaderIsNotStar(items: seq<Item>)
    requires items != [] && forall i :: 0 <= i < |items| ==> WellFormedItem(items[i])
    ensures Quotes(Header(items)) > 0
  {
    var first := RenderItem(items[0]);
    RenderQuotes(items[0]);
    if |items| > 1 {
      var rest := Header(items[1..]);
      QuotesConcat(first, ",");
      QuotesConcat(first + ",", rest);
    }
  }

  lemma QuotedInjective(a: string, b: string)
    ensures Quoted(a) == Quoted(b) <==> a == b
  {
    assert Quoted(a)[1..|Quoted(a)| - 1] == a;
    assert Quoted(b)[1..|Quoted(b)| - 1] == b;
  }

  lemma MatchesIffHits(ifNoneMatch: string, etag: string)
    requires Quotes(ifNoneMatch) > 0
    ensures EtagMatches(ifNoneMatch, etag) <==> Hits(ifNoneMatch, RemoveWeak(etag))
  {
    QuotesStrip(ifNoneMatch);
    NoQuotes("*");
  }

  /**
   For every list of entity tags, commas inside tags included, the header matches exactly
   when some tag equals ours under weak comparison.
   */
  lemma MatchesIsWeakComparison(items: seq<Item>, own: EntityTag)
    requires items != [] && forall i :: 0 <= i < |items| ==> WellFormedItem(items[i])
    requires ',' !in own.value && '"' !in own.value
    ensures EtagMatches(Header(items), Render(own)) <==> exists i :: 0 <= i < |items| && items[i].tag.value == own.value
  {
    var target := Quoted(own.value);
    OneQuote("", own.value);
    QuotesConcat("" + "\"" + own.value, "\"");
    assert "" + "\"" + own.value + "\"" == target;
    RemoveWeakRender(own);
    HeaderHits(items, target);
    HeaderIsNotStar(items);
    MatchesIffHits(Header(items), Render(own));
    forall i | 0 <= i < |items| ensures Quoted(items[i].tag.value) == target <==> items[i].tag.value == own.value {
      QuotedInjective(items[i].tag.value, own.value);
    }
  }

  /** A header that is just `*`, with or without blanks around it, matches every tag. */
  lemma StarMatches(lead: string, trail: string, etag: string)
    requires Blank(lead) && Blank(trail)
    ensures EtagMatches(lead + "*" + trail, etag)
  {
    assert lead + "*" + trail == lead + ("*" + trail);
    StripLeftBlank(lead, "*" + trail);
    StripRightBlank("*", trail);
  }
}
