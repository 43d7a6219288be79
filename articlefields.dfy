/**
 * Field selection on one article page: the title, the three dates and
 * the body text, each falling back to a fixed placeholder when the page
 * lacks it, and the record that is then handed to the upsert.
 */
module ArticleFields {
  import opened Wrappers
  import opened Text
  import opened Names
  import opened Extraction
  import opened Dates
  import opened Store

  const TitleNotFound := "Título não encontrado"
  const DateNotFound := "Data não encontrada"
  const DatesNotFound := "Datas não encontradas"
  const TextNotFound := "Texto não encontrado"

  /** A value of the decoded structured-data object: a string, or any other kind of value (a number, null, a list, an object). */
  datatype JsonValue = JString(s: string) | JOther

  /**
   * The page's first `application/ld+json` script: absent, present but
   * not decodable into an object, or decoded into an object's fields.
   */
  datatype JsonLd = NoScript | Malformed | JsonObject(fields: map<string, JsonValue>)

  /**
   * What the page offers, as the parser finds it: the first `h1` of each
   * of the two heading classes, the structured data, and the paragraphs
   * of the article body container when there is one.
   */
  datatype ArticlePage = ArticlePage(
    headlineTitle: Option<Node>,       // h1.article__header--headline-title
    headerTitle: Option<Node>,         // h1.article__header--title
    jsonLd: JsonLd,
    body: Option<seq<Node>>)           // the `p` elements of div.article__blocks clearfix

  /** The title: the text of the first heading class present, else the placeholder. */
  function Title(page: ArticlePage): (r: string)
    ensures page.headlineTitle.Some? ==> r == ExtractedText(page.headlineTitle).value
    ensures page.headlineTitle.None? && page.headerTitle.Some? ==> r == ExtractedText(page.headerTitle).value
    ensures page.headlineTitle.None? && page.headerTitle.None? ==> r == TitleNotFound
  {
    if page.headlineTitle.Some? then ExtractedText(page.headlineTitle).value
    else if page.headerTitle.Some? then ExtractedText(page.headerTitle).value
    else TitleNotFound
  }

  /** `dados_json.get(key, placeholder)`. */
  function Lookup(fields: map<string, JsonValue>, key: string): JsonValue {
    if key in fields then fields[key] else JString(DateNotFound)
  }

  /**
   * The three raw dates (created, published, modified), or `None` when
   * decoding the structured data raises.
   */
  function RawDates(j: JsonLd): (r: Option<(JsonValue, JsonValue, JsonValue)>)
    ensures r.None? <==> j.Malformed?
    ensures j.NoScript? ==> r == Some((JString(DatesNotFound), JString(DatesNotFound), JString(DatesNotFound)))
  {
    match j
    case NoScript => Some((JString(DatesNotFound), JString(DatesNotFound), JString(DatesNotFound)))
    case Malformed => None
    case JsonObject(fields) => Some((Lookup(fields, "dateCreated"), Lookup(fields, "datePublished"), Lookup(fields, "dateModified")))
  }

  /** One date as stored: reformatted when it is a string, `None` when the reformatting raises. */
  function StoredDate(v: JsonValue): (r: Option<string>)
    ensures r.Some? ==> v.JString?
    ensures v.JString? && Parse(v.s).None? ==> r == Some(v.s)
  {
    match v
    case JString(s) => FormatDate(s)
    case JOther => None
  }

  /** The text of one paragraph, which is always present. */
  function ParagraphText(p: Node): string {
    ExtractedText(Some(p)).value
  }

  /** The text of each paragraph, in order. */
  function ParagraphTexts(ps: seq<Node>): (r: seq<string>)
    ensures |r| == |ps|
  {
    if ps == [] then [] else ParagraphTexts(ps[..|ps| - 1]) + [ParagraphText(ps[|ps| - 1])]
  }

  /** The `i`-th text is the `i`-th paragraph's. */
  lemma {:induction false} ParagraphTextsAt(ps: seq<Node>, i: nat)
    requires i < |ps|
    ensures ParagraphTexts(ps)[i] == ParagraphText(ps[i])
  {
    if i < |ps| - 1 {
      ParagraphTextsAt(ps[..|ps| - 1], i);
      assert ps[..|ps| - 1][i] == ps[i];
    }
  }

  /** The body text: the paragraph texts joined by single spaces, or the placeholder when there is no body container. */
  function BodyText(body: Option<seq<Node>>): string {
    match body
    case None => TextNotFound
    case Some(ps) => Join(" ", ParagraphTexts(ps))
  }

  /**
   * `scrap_pagina_noticia` up to the upsert: the record for `url`, or
   * `None` when fetching the page, decoding its structured data or
   * reformatting one of its dates raises. `name` is the term as the walker
   * passes it; the record carries it with `+` renamed to `_`.
   */
  function ScrapedArticle(articles: map<string, ArticlePage>, url: string, name: string, kind: string): (r: Option<Article>)
    ensures r.Some? ==> url in articles && r.value.link == url && r.value.searchTerm == TableName(name) && r.value.kind == kind
    ensures r.Some? ==> r.value.title == Title(articles[url]) && r.value.text == BodyText(articles[url].body)
    ensures r.Some? ==> articles[url].jsonLd.NoScript? || articles[url].jsonLd.JsonObject?
    ensures r.Some? && articles[url].jsonLd.JsonObject? ==>
      var f := articles[url].jsonLd.fields;
      && StoredDate(Lookup(f, "dateCreated")) == Some(r.value.created)
      && StoredDate(Lookup(f, "datePublished")) == Some(r.value.published)
      && StoredDate(Lookup(f, "dateModified")) == Some(r.value.modified)
  {
    if url !in articles then None
    else
      var page := articles[url];
      match RawDates(page.jsonLd)
      case None => None
      case Some((c, p, m)) =>
        match (StoredDate(c), StoredDate(p), StoredDate(m))
        case (Some(c'), Some(p'), Some(m')) =>
          Some(Article(TableName(name), kind, url, Title(page), c', p', m', BodyText(page.body)))
        case _ => None
  }

  /** The record fails exactly when the page is missing, its structured data does not decode, or one stored date fails. */
  lemma ScrapedArticleFails(articles: map<string, ArticlePage>, url: string, name: string, kind: string)
    ensures ScrapedArticle(articles, url, name, kind).None? <==>
      url !in articles || RawDates(articles[url].jsonLd).None? ||
      (var (c, p, m) := RawDates(articles[url].jsonLd).value;
       StoredDate(c).None? || StoredDate(p).None? || StoredDate(m).None?)
  {
  }

  /** Without structured data every date is the shared placeholder, stored as it is. */
  lemma NoScriptDates(articles: map<string, ArticlePage>, url: string, name: string, kind: string)
    requires url in articles && articles[url].jsonLd.NoScript?
    ensures var r := ScrapedArticle(articles, url, name, kind);
      r.Some? && r.value.created == DatesNotFound && r.value.published == DatesNotFound && r.value.modified == DatesNotFound
  {
    DatesNotFoundUnchanged();
  }

  lemma DatesNotFoundUnchanged()
    ensures FormatDate(DatesNotFound) == Some(DatesNotFound)
  {
    assert !HasIsoShape(DatesNotFound) by {
      assert |DatesNotFound| != 24;
    }
  }

  lemma DateNotFoundUnchanged()
    ensures FormatDate(DateNotFound) == Some(DateNotFound)
  {
    assert !HasIsoShape(DateNotFound) by {
      assert |DateNotFound| != 24;
    }
  }

  /** A key missing from the structured data gives that date alone the single-date placeholder. */
  lemma MissingKeyDate(fields: map<string, JsonValue>, key: string)
    requires key !in fields
    ensures StoredDate(Lookup(fields, key)) == Some(DateNotFound)
  {
    DateNotFoundUnchanged();
  }

  /**
   * In the record, each date whose key is missing from the structured data
   * is the single-date placeholder, and a record with all three keys
   * missing is always made.
   */
  lemma MissingKeyColumns(articles: map<string, ArticlePage>, url: string, name: string, kind: string)
    requires url in articles && articles[url].jsonLd.JsonObject?
    ensures var f := articles[url].jsonLd.fields;
      var r := ScrapedArticle(articles, url, name, kind);
      && (r.Some? && "dateCreated" !in f ==> r.value.created == DateNotFound)
      && (r.Some? && "datePublished" !in f ==> r.value.published == DateNotFound)
      && (r.Some? && "dateModified" !in f ==> r.value.modified == DateNotFound)
      && ("dateCreated" !in f && "datePublished" !in f && "dateModified" !in f ==> r.Some?)
  {
    DateNotFoundUnchanged();
  }

  /** With neither heading class the title is the placeholder itself. */
  lemma TitleMissing(articles: map<string, ArticlePage>, url: string, name: string, kind: string)
    requires url in articles && articles[url].headlineTitle.None? && articles[url].headerTitle.None?
    requires ScrapedArticle(articles, url, name, kind).Some?
    ensures ScrapedArticle(articles, url, name, kind).value.title == TitleNotFound
  {
  }

  /** A body container without paragraphs gives the empty text, and a missing one the placeholder. */
  lemma BodyCases()
    ensures BodyText(Some([])) == ""
    ensures BodyText(None) == TextNotFound
  {
  }

  /** With at least two paragraphs the body is the text so far, one space, and the last paragraph's text. */
  lemma BodyJoined(ps: seq<Node>, p: Node)
    requires ps != []
    ensures BodyText(Some(ps + [p])) == BodyText(Some(ps)) + " " + ParagraphText(p)
  {
    assert (ps + [p])[..|ps|] == ps;
  }

  /** One paragraph gives its own text. */
  lemma BodySingle(p: Node)
    ensures BodyText(Some([p])) == ParagraphText(p)
  {
  }
}
