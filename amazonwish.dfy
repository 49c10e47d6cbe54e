/**
  The extraction layer of Amazon Wishlist: a `Profile` wraps a user's landing
  page and a `Wishlist` the printable rendering of a wishlist. Each extractor
  takes the nodes (or attribute strings) that one fixed path query selects on
  the stored page and turns their text into a result list.

  The page is represented by what its queries select, in document order; the
  queries themselves, the fetching and the HTML parsing are outside the model.
 */
module AmazonWish {
  import opened Wrappers
  import opened PyStr

  // ---------------------------------------------------------------------------
  // Data model
  // ---------------------------------------------------------------------------

  /** What the per-country configuration supplies for a storefront. */
  datatype CountryParams = CountryParams(domain: string, currency: string, symbol: string)

  /** The character encoding the HTML parser is created with. */
  datatype Encoding = Latin1 | Utf8

  /** An element selected by a query; its `text` is `None` when the element has no leading text. */
  datatype Node = Node(text: Option<string>)

  /** The selections made on a profile page, each in document order. */
  datatype ProfilePage = ProfilePage(
    nameCells: seq<Node>,     // the profile-name table cells
    photoSrcs: seq<string>,   // `src` attributes of the profile image
    listIds: seq<string>,     // `id` attributes of the public wishlist blocks
    sizeSpans: seq<Node>)     // the first span of each wishlist block (its item count)

  /** The selections made on a printable wishlist page, each in document order. */
  datatype WishlistPage = WishlistPage(
    authorSpans: seq<Node>,   // byline spans of the first row of each item
    titleNodes: seq<Node>,    // item titles
    priceNodes: seq<Node>,    // price tags
    viaNodes: seq<Node>,      // the external site an item was added from
    coverSrcs: seq<string>)   // `src` attributes of the item pictures

  /**
    An extractor that calls a string method on an element's text raises when
    that text is `None`; `index` is the position of that element in the query
    result.
   */
  datatype Fault = NoText(index: nat)

  /** Every selected element has text. */
  predicate AllHaveText(nodes: seq<Node>)
  {
    forall k :: 0 <= k < |nodes| ==> nodes[k].text.Some?
  }

  /** `i` is the first selected element without text. */
  predicate FirstWithoutText(nodes: seq<Node>, i: nat)
  {
    i < |nodes| && nodes[i].text.None? && forall k :: 0 <= k < i ==> nodes[k].text.Some?
  }

  // ---------------------------------------------------------------------------
  // Parser encoding
  // ---------------------------------------------------------------------------

  /** British pages are parsed as Latin-1, every other storefront as UTF-8. */
  function ParserEncoding(currency: string): Encoding
  {
    if Contains(currency, "GBP") then Latin1 else Utf8
  }

  /** The encoding is Latin-1 exactly when "GBP" occurs at some position of the currency. */
  lemma Latin1IffGbpOccurs(currency: string)
    ensures ParserEncoding(currency) == Latin1 <==> exists i :: 0 <= i <= |currency| && "GBP" <= currency[i..]
  {
    ContainsIff(currency, "GBP");
  }

  // ---------------------------------------------------------------------------
  // Price normalisation
  // ---------------------------------------------------------------------------

  /** The two characters a Japanese price tag is decoded with in front of the amount. */
  const JpyCleaner: string := ['\U{81}', '\U{8F}']
  /** The pound sign. */
  const PoundSign: string := ['\U{A3}']

  /**
    The currency codes the cleaner is chosen by, in the order they are tested,
    each with the token stripped from price tags when the currency contains it.
   */
  const CleanerTable: seq<(string, string)> :=
    [("JPY", JpyCleaner), ("EUR", "EUR"), ("CDN", "CDN$"), ("GBP", PoundSign)]

  /**
    The token removed from every price tag. The first code of `CleanerTable`
    that occurs in the currency decides it, so a currency naming both JPY and
    EUR gets the JPY token; when none occurs the configured symbol is used.
   */
  function Cleaner(currency: string, symbol: string): (r: string)
    ensures forall k ::
      (0 <= k < |CleanerTable| && Contains(currency, CleanerTable[k].0)
       && (forall j :: 0 <= j < k ==> !Contains(currency, CleanerTable[j].0)))
      ==> r == CleanerTable[k].1
    ensures (forall k :: 0 <= k < |CleanerTable| ==> !Contains(currency, CleanerTable[k].0))
      ==> r == symbol
  {
    assert CleanerTable[0] == ("JPY", JpyCleaner) && CleanerTable[1] == ("EUR", "EUR");
    assert CleanerTable[2] == ("CDN", "CDN$") && CleanerTable[3] == ("GBP", PoundSign);
    if Contains(currency, "JPY") then JpyCleaner
    else if Contains(currency, "EUR") then "EUR"
    else if Contains(currency, "CDN") then "CDN$"
    else if Contains(currency, "GBP") then PoundSign
    else symbol
  }

  /**
    A page parsed as Latin-1 has its pound signs stripped unless the currency
    also names a code of higher precedence; and a pound-sign cleaner that is
    not the configured symbol only comes from a Latin-1 (British) currency.
   */
  lemma PoundCleanerIffLatin1(currency: string, symbol: string)
    ensures ParserEncoding(currency) == Latin1 && !Contains(currency, "JPY")
      && !Contains(currency, "EUR") && !Contains(currency, "CDN")
      ==> Cleaner(currency, symbol) == PoundSign
    ensures Cleaner(currency, symbol) == PoundSign && symbol != PoundSign
      ==> ParserEncoding(currency) == Latin1
  {
    assert JpyCleaner != PoundSign && "EUR" != PoundSign && "CDN$" != PoundSign;
  }

  /**
    The rewrite of one price tag: remove every occurrence of the cleaner,
    turn every decimal comma into a point, and strip surrounding whitespace.
    The result contains no comma and neither starts nor ends with whitespace.
   */
  function NormalizePrice(text: string, cleaner: string): (r: string)
    ensures ',' !in r
    ensures Trimmed(r)
  {
    Strip(DecimalPoints(Replace(text, cleaner, "")))
  }

  /** Every decimal comma of `s` turned into a point: same length, no comma left. */
  function DecimalPoints(s: string): (r: string)
    ensures |r| == |s| && ',' !in r
    ensures forall k :: 0 <= k < |s| ==> r[k] == if s[k] == ',' then '.' else s[k]
  {
    ReplaceCharAt(s, ',', '.');
    Replace(s, ",", ".")
  }

  /** `Replace(s, pat, "")` only deletes: every character it keeps is one of `s`. */
  lemma {:induction false} DeletionKeepsCharacters(s: string, pat: string)
    ensures forall c :: c in Replace(s, pat, "") ==> c in s
    decreases |s|
  {
    if s != [] {
      DeletionKeepsCharacters(s[1..], pat);
      if pat != [] && pat <= s {
        DeletionKeepsCharacters(s[|pat|..], pat);
        forall c | c in s[|pat|..] ensures c in s {
          var k :| 0 <= k < |s[|pat|..]| && s[|pat|..][k] == c;
          assert s[|pat| + k] == c;
        }
      }
    }
  }

  /**
    Every character of a normalised price is a decimal point or a character of
    the tag it came from.
   */
  lemma NormalizePriceCharacters(text: string, cleaner: string)
    ensures forall c :: c in NormalizePrice(text, cleaner) ==> c == '.' || c in text
  {
    var removed := Replace(text, cleaner, "");
    var pointed := Replace(removed, ",", ".");
    DeletionKeepsCharacters(text, cleaner);
    ReplaceCharAt(removed, ',', '.');
    StripKeepsCharacters(pointed);
    forall c | c in pointed ensures c == '.' || c in removed {
      var k :| 0 <= k < |pointed| && pointed[k] == c;
      assert removed[k] == c || c == '.';
    }
  }

  /** `Contains` on a one-character pattern is membership. */
  lemma {:induction false} ContainsChar(s: string, c: char)
    ensures Contains(s, [c]) <==> c in s
    decreases |s|
  {
    if s != [] {
      ContainsChar(s[1..], c);
      assert s == [s[0]] + s[1..];
    }
  }

  /**
    A tag with no cleaner occurrence, no comma and no surrounding whitespace
    comes out unchanged.
   */
  lemma NormalizePriceUnchanged(text: string, cleaner: string)
    requires !Contains(text, cleaner) && ',' !in text && Trimmed(text)
    ensures NormalizePrice(text, cleaner) == text
  {
    assert Contains(text, []);
    ReplaceAbsent(text, cleaner, "");
    ContainsChar(text, ',');
    ReplaceAbsent(text, ",", ".");
    StripTrimmed(text);
  }

  /** With an empty configured symbol as cleaner, nothing is removed before the comma rewrite. */
  lemma EmptyCleanerRemovesNothing(text: string)
    ensures NormalizePrice(text, "") == Strip(DecimalPoints(text))
  {
    ReplaceEmptyByEmpty(text);
  }

  /**
    One pass of `replace` does not rescan its output: removing "EUR" from
    "EEURUR" leaves "EUR", so a cleaned price may still hold the cleaner.
   */
  lemma CleanerMaySurvive()
    ensures NormalizePrice("EEURUR", "EUR") == "EUR"
    ensures Contains(NormalizePrice("EEURUR", "EUR"), "EUR")
  {
    var s := "EEURUR";
    assert s[1] != "EUR"[1];
    assert s[1..] == "EURUR" && "EUR" <= s[1..];
    assert s[1..][3..] == "UR" && !("EUR" <= "UR");
    assert "UR"[1..] == "R" && !("EUR" <= "R");
    assert "R"[1..] == "";
    assert Replace(s, "EUR", "") == "EUR";
    ReplaceAbsent("EUR", ",", ".");
    assert Replace("EUR", ",", ".") == "EUR";
    StripTrimmed("EUR");
  }

  // ---------------------------------------------------------------------------
  // Host names and wishlist codes
  // ---------------------------------------------------------------------------

  /**
    The site an item came from, with every non-overlapping "www." removed:
    four characters shorter per removal, and unchanged when there is none.
   */
  function StripHost(text: string): (r: string)
    ensures |r| == |text| - 4 * Matches(text, "www.")
    ensures Matches(text, "www.") > 0 <==> Contains(text, "www.")
    ensures !Contains(text, "www.") ==> r == text
  {
    ReplaceLength(text, "www.", "");
    MatchesPositiveIff(text, "www.");
    if !Contains(text, "www.") then ReplaceAbsent(text, "www.", ""); Replace(text, "www.", "")
    else Replace(text, "www.", "")
  }

  /** The removal is not repeated, so a host name can still hold "www." afterwards. */
  lemma HostMayKeepPrefix()
    ensures StripHost("wwwww.w.") == "www."
  {
    var s := "wwwww.w.";
    assert s[3] != "www."[3] && s[1..] == "wwww.w.";
    assert s[1..][3] != "www."[3] && s[2..] == "www.w.";
    assert "www." <= s[2..] && s[2..][4..] == "w.";
    assert !("www." <= "w.") && "w."[1..] == "." && !("www." <= ".") && "."[1..] == "";
    assert Replace("w.", "www.", "") == "w.";
    assert Replace(s[2..], "www.", "") == "w.";
  }

  /** The prefix of the `id` attribute of a public wishlist block. */
  const ListIdPrefix: string := "regListsList"

  /** A wishlist's code: its block's `id` with every "regListsList" removed. */
  function WishlistCode(id: string): (r: string)
    ensures |r| == |id| - |ListIdPrefix| * Matches(id, ListIdPrefix)
    ensures !Contains(id, ListIdPrefix) ==> r == id
  {
    ReplaceLength(id, ListIdPrefix, "");
    if !Contains(id, ListIdPrefix) then ReplaceAbsent(id, ListIdPrefix, ""); Replace(id, ListIdPrefix, "")
    else Replace(id, ListIdPrefix, "")
  }

  /** A block id made of the prefix and a code that does not itself hold the prefix yields that code. */
  lemma WishlistCodeOfId(code: string)
    requires !Contains(code, ListIdPrefix)
    ensures WishlistCode(ListIdPrefix + code) == code
  {
    ReplaceLeading(ListIdPrefix, code, "");
    ReplaceAbsent(code, ListIdPrefix, "");
  }

  // ---------------------------------------------------------------------------
  // Profile
  // ---------------------------------------------------------------------------

  /** A user's landing page: name, photo and public wishlists. */
  class Profile {
    var currency: string
    var symbol: string
    var page: ProfilePage

    /**
      Takes the storefront's configuration and fetches the page; `fetch`
      stands for downloading the user's page and parsing it with the given
      encoding.
     */
    constructor (params: CountryParams, fetch: Encoding -> ProfilePage)
      ensures currency == params.currency && symbol == params.symbol
      ensures page == fetch(ParserEncoding(params.currency))
    {
      currency := params.currency;
      symbol := params.symbol;
      new;
      Download(fetch);
    }

    /** Stores the page parsed with the encoding the currency calls for. */
    method Download(fetch: Encoding -> ProfilePage)
      modifies this`page
      ensures page == fetch(ParserEncoding(currency))
    {
      page := fetch(ParserEncoding(currency));
    }

    /**
      The text of every name cell, in order, followed by the first photo
      address when the page has a photo.
     */
    method BasicInfo() returns (ret: seq<Option<string>>)
      ensures |ret| == |page.nameCells| + (if page.photoSrcs == [] then 0 else 1)
      ensures forall k :: 0 <= k < |page.nameCells| ==> ret[k] == page.nameCells[k].text
      ensures page.photoSrcs != [] ==> ret[|page.nameCells|] == Some(page.photoSrcs[0])
    {
      var names := page.nameCells;
      ret := [];
      for i := 0 to |names|
        invariant |ret| == i
        invariant forall k :: 0 <= k < i ==> ret[k] == names[k].text
      {
        ret := ret + [names[i].text];
      }
      var photo := page.photoSrcs;
      if photo != [] {
        ret := ret + [Some(photo[0])];
      }
    }

    /**
      The code of every public wishlist, one per block id, and separately the
      item-count text of every block that shows one; the two lists are not
      required to have the same length.
     */
    method WishlistsDetails() returns (codes: seq<string>, sizes: seq<Option<string>>)
      ensures |codes| == |page.listIds|
      ensures forall k :: 0 <= k < |codes| ==> codes[k] == WishlistCode(page.listIds[k])
      ensures |sizes| == |page.sizeSpans|
      ensures forall k :: 0 <= k < |sizes| ==> sizes[k] == page.sizeSpans[k].text
    {
      var ids := page.listIds;
      codes := [];
      for i := 0 to |ids|
        invariant |codes| == i
        invariant forall k :: 0 <= k < i ==> codes[k] == WishlistCode(ids[k])
      {
        codes := codes + [WishlistCode(ids[i])];
      }
      var spans := page.sizeSpans;
      sizes := [];
      for i := 0 to |spans|
        invariant |sizes| == i
        invariant forall k :: 0 <= k < i ==> sizes[k] == spans[k].text
      {
        sizes := sizes + [spans[i].text];
      }
    }
  }

  // ---------------------------------------------------------------------------
  // Wishlist
  // ---------------------------------------------------------------------------

  /** The printable rendering of one wishlist. */
  class Wishlist {
    var currency: string
    var symbol: string
    var page: WishlistPage

    /**
      Reads the storefront's configuration and fetches the page; `fetch`
      stands for downloading the printable wishlist and parsing it with the
      given encoding.
     */
    constructor (params: CountryParams, fetch: Encoding -> WishlistPage)
      ensures currency == params.currency && symbol == params.symbol
      ensures page == fetch(ParserEncoding(params.currency))
    {
      new;
      var _ := ReadConfig(params);
      Download(fetch);
    }

    /** Records the storefront's currency and symbol and hands the configuration back. */
    method ReadConfig(params: CountryParams) returns (r: CountryParams)
      modifies this`currency, this`symbol
      ensures currency == params.currency && symbol == params.symbol
      ensures r == params
    {
      currency := params.currency;
      symbol := params.symbol;
      r := params;
    }

    /** Stores the page parsed with the encoding the currency calls for. */
    method Download(fetch: Encoding -> WishlistPage)
      modifies this`page
      ensures page == fetch(ParserEncoding(currency))
    {
      page := fetch(ParserEncoding(currency));
    }

    /** The byline text of every selected span, in order, absent text included. */
    method Authors() returns (ret: seq<Option<string>>)
      ensures |ret| == |page.authorSpans|
      ensures forall k :: 0 <= k < |ret| ==> ret[k] == page.authorSpans[k].text
    {
      var spans := page.authorSpans;
      ret := [];
      for i := 0 to |spans|
        invariant |ret| == i
        invariant forall k :: 0 <= k < i ==> ret[k] == spans[k].text
      {
        ret := ret + [spans[i].text];
      }
    }

    /** The text of every selected title, in order, absent text included. */
    method Titles() returns (ret: seq<Option<string>>)
      ensures |ret| == |page.titleNodes|
      ensures forall k :: 0 <= k < |ret| ==> ret[k] == page.titleNodes[k].text
    {
      var titles := page.titleNodes;
      ret := [];
      for i := 0 to |titles|
        invariant |ret| == i
        invariant forall k :: 0 <= k < i ==> ret[k] == titles[k].text
      {
        ret := ret + [titles[i].text];
      }
    }

    /**
      One normalised price per selected price tag, in order, all cleaned with
      the token the currency selects; no entry holds a comma or surrounding
      whitespace. A tag without text makes the whole call fail at the first
      such tag.
     */
    method Prices() returns (r: Result<seq<string>, Fault>)
      ensures r.Success? <==> AllHaveText(page.priceNodes)
      ensures r.Failure? ==> FirstWithoutText(page.priceNodes, r.error.index)
      ensures r.Success? ==> |r.value| == |page.priceNodes|
      ensures r.Success? ==> forall k :: 0 <= k < |r.value| ==>
        r.value[k] == NormalizePrice(page.priceNodes[k].text.value, Cleaner(currency, symbol))
      ensures r.Success? ==> forall k :: 0 <= k < |r.value| ==> ',' !in r.value[k] && Trimmed(r.value[k])
    {
      var prices := page.priceNodes;
      var cleaner := Cleaner(currency, symbol);
      var ret: seq<string> := [];
      for i := 0 to |prices|
        invariant |ret| == i
        invariant forall k :: 0 <= k < i ==> prices[k].text.Some? && ret[k] == NormalizePrice(prices[k].text.value, cleaner)
      {
        match prices[i].text
        case None =>
          return Failure(NoText(i));
        case Some(t) =>
          var entry := NormalizePrice(t, cleaner);
          ret := ret + [entry];
          assert ret[i] == entry;
      }
      return Success(ret);
    }

    /**
      The host name of every selected "via" element with "www." removed, in
      order; it is neither deduplicated nor sorted. An element without text
      makes the whole call fail at the first such element.
     */
    method Via() returns (r: Result<seq<string>, Fault>)
      ensures r.Success? <==> AllHaveText(page.viaNodes)
      ensures r.Failure? ==> FirstWithoutText(page.viaNodes, r.error.index)
      ensures r.Success? ==> |r.value| == |page.viaNodes|
      ensures r.Success? ==> forall k :: 0 <= k < |r.value| ==>
        r.value[k] == StripHost(page.viaNodes[k].text.value)
    {
      var via := page.viaNodes;
      var ret: seq<string> := [];
      for i := 0 to |via|
        invariant |ret| == i
        invariant forall k :: 0 <= k < i ==> via[k].text.Some? && ret[k] == StripHost(via[k].text.value)
      {
        match via[i].text
        case None =>
          return Failure(NoText(i));
        case Some(t) =>
          ret := ret + [StripHost(t)];
      }
      return Success(ret);
    }

    /** Every selected picture address, in order and unchanged. */
    method Covers() returns (ret: seq<string>)
      ensures ret == page.coverSrcs
    {
      var covers := page.coverSrcs;
      ret := [];
      for i := 0 to |covers|
        invariant ret == covers[..i]
      {
        ret := ret + [covers[i]];
      }
    }
  }
}
