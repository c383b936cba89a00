/**
 * The article record of the idnes.cz scraper and the part of its field
 * extractor that runs after the XPath queries: content concatenation, the
 * category taken from the URL path, the photo count, the comment count
 * parsed out of its label, then trimming and conversion to a JSON object.
 */
module WebScraper {
  import opened Wrappers
  import opened StrOps
  import opened DigitRun

  /** The JSON values an article serialises to: strings and integers. */
  datatype JsonValue = JString(text: string) | JInt(number: int)

  /** The six keys of an article's JSON object. */
  const ArticleKeys: set<string> := {"title", "content", "category", "photos", "date", "comments"}

  /** The value held by an `Article` object at one moment. */
  datatype ArticleRecord = ArticleRecord(
    title: string,
    content: string,
    category: string,
    photos: int,
    date: string,
    comments: int)

  /** The four string fields of `a` have no whitespace at either end. */
  predicate IsStripped(a: ArticleRecord) {
    Trimmed(a.title) && Trimmed(a.content) && Trimmed(a.category) && Trimmed(a.date)
  }

  /** The record `strip_output` leaves behind: the four string fields stripped. */
  function StripRecord(a: ArticleRecord): ArticleRecord {
    a.(title := Strip(a.title), content := Strip(a.content),
       category := Strip(a.category), date := Strip(a.date))
  }

  /** The JSON object of an article: one key per field. */
  function ToJson(a: ArticleRecord): map<string, JsonValue> {
    map["title" := JString(a.title), "content" := JString(a.content),
        "category" := JString(a.category), "photos" := JInt(a.photos),
        "date" := JString(a.date), "comments" := JInt(a.comments)]
  }

  /**
   * Reading an article back from its JSON object: the inverse of
   * `Article.GetJson`. Anything but exactly the six keys, strings under the
   * four text keys and integers under `photos` and `comments`, is not an
   * article.
   */
  function FromJson(j: map<string, JsonValue>): Option<ArticleRecord> {
    if && j.Keys == ArticleKeys
       && j["title"].JString? && j["content"].JString? && j["category"].JString?
       && j["photos"].JInt? && j["date"].JString? && j["comments"].JInt?
    then Some(ArticleRecord(j["title"].text, j["content"].text, j["category"].text,
                            j["photos"].number, j["date"].text, j["comments"].number))
    else None
  }

  class Article {
    var title: string
    var content: string
    var category: string
    var photos: int
    var date: string
    var comments: int

    /** The article's current field values. */
    function Value(): ArticleRecord
      reads this
    {
      ArticleRecord(title, content, category, photos, date, comments)
    }

    constructor (title: string, content: string, category: string, photos: int, date: string, comments: int)
      ensures Value() == ArticleRecord(title, content, category, photos, date, comments)
    {
      this.title := title;
      this.content := content;
      this.category := category;
      this.photos := photos;
      this.date := date;
      this.comments := comments;
    }

    /** The article as a JSON object, one key per field. */
    function GetJson(): (j: map<string, JsonValue>)
      reads this
      ensures j.Keys == ArticleKeys
      ensures j["title"] == JString(title) && j["content"] == JString(content)
      ensures j["category"] == JString(category) && j["photos"] == JInt(photos)
      ensures j["date"] == JString(date) && j["comments"] == JInt(comments)
      ensures FromJson(j) == Some(Value())
    {
      ToJson(Value())
    }

    /** Trims the four string fields in place; `photos` and `comments` are not touched. */
    method StripOutput()
      modifies this`title, this`content, this`category, this`date
      ensures Value() == StripRecord(old(Value()))
      ensures photos == old(photos) && comments == old(comments)
      ensures IsStripped(Value())
    {
      title := Strip(title);
      content := Strip(content);
      category := Strip(category);
      date := Strip(date);
      StripRecordIsStripped(old(Value()));
    }
  }

  /** After stripping, no string field begins or ends with whitespace. */
  lemma StripRecordIsStripped(a: ArticleRecord)
    ensures IsStripped(StripRecord(a))
  {
    StripIsTrimmed(a.title);
    StripIsTrimmed(a.content);
    StripIsTrimmed(a.category);
    StripIsTrimmed(a.date);
  }

  /** Stripping an already stripped record changes nothing. */
  lemma StripRecordIdempotent(a: ArticleRecord)
    ensures StripRecord(StripRecord(a)) == StripRecord(a)
  {
    StripIdempotent(a.title);
    StripIdempotent(a.content);
    StripIdempotent(a.category);
    StripIdempotent(a.date);
  }

  /** Each stripped field is its original value with whitespace cut off both ends. */
  lemma StripRecordKeepsInfixes(a: ArticleRecord)
    ensures var b := StripRecord(a);
      && (exists pre, post :: AllSpace(pre) && AllSpace(post) && a.title == pre + b.title + post)
      && (exists pre, post :: AllSpace(pre) && AllSpace(post) && a.content == pre + b.content + post)
      && (exists pre, post :: AllSpace(pre) && AllSpace(post) && a.category == pre + b.category + post)
      && (exists pre, post :: AllSpace(pre) && AllSpace(post) && a.date == pre + b.date + post)
  {
    StripIsInfix(a.title);
    StripIsInfix(a.content);
    StripIsInfix(a.category);
    StripIsInfix(a.date);
  }

  /** The JSON object of an article determines the article and nothing more. */
  lemma FromJsonDeterminesObject(j: map<string, JsonValue>, a: ArticleRecord)
    requires FromJson(j) == Some(a)
    ensures j == ToJson(a)
  {
  }

  /** `url.split("/")[3]`, or `None` where that index is out of range. */
  function Category(url: string): (c: Option<string>)
    ensures c.Some? ==> '/' !in c.value
  {
    var pieces := Split(url, '/');
    SplitPiecesAreSeparatorFree(url, '/');
    if |pieces| > 3 then Some(pieces[3]) else None
  }

  /** `int(re.findall(r'\d+', label)[0])`, or `None` where the label has no digit. */
  function CommentCount(caption: string): Option<nat> {
    match FirstDigitRun(caption)
    case None => None
    case Some(run) => Some(DigitsValue(run))
  }

  /** The category exists exactly when the URL has at least three slashes. */
  lemma CategoryExists(url: string)
    ensures Category(url).Some? <==> Count(url, '/') >= 3
  {
    SplitCount(url, '/');
  }

  /**
   * In `scheme//host/section...` the category is the section: the fourth
   * slash-separated piece, whatever follows it.
   */
  lemma CategoryIsFourthPiece(p0: string, p1: string, p2: string, c: string, rest: string)
    requires '/' !in p0 && '/' !in p1 && '/' !in p2 && '/' !in c
    requires rest == [] || rest[0] == '/'
    ensures Category(p0 + "/" + p1 + "/" + p2 + "/" + c + rest) == Some(c)
  {
    var tail := SplitSection(c, rest);
    var s2 := p2 + ['/'] + (c + rest);
    var s1 := p1 + ['/'] + s2;
    var s0 := p0 + ['/'] + s1;
    SplitCons(p2, '/', c + rest);
    SplitCons(p1, '/', s2);
    SplitCons(p0, '/', s1);
    assert Split(s0, '/') == [p0, p1, p2] + tail;
    assert p0 + "/" + p1 + "/" + p2 + "/" + c + rest == s0;
  }

  /** The pieces of a separator-free section followed by nothing or by `/...`. */
  lemma SplitSection(c: string, rest: string) returns (tail: seq<string>)
    requires '/' !in c
    requires rest == [] || rest[0] == '/'
    ensures Split(c + rest, '/') == tail && |tail| >= 1 && tail[0] == c
  {
    if rest == [] {
      SplitSeparatorFree(c, '/');
      assert c + rest == c;
      tail := [c];
    } else {
      SplitCons(c, '/', rest[1..]);
      assert c + rest == c + ['/'] + rest[1..];
      tail := [c] + Split(rest[1..], '/');
    }
  }

  /** The archive URLs of the sport section give the category `sport`. */
  lemma SportCategory()
    ensures Category("https://www.idnes.cz/sport/archiv/5") == Some("sport")
  {
    assert "https://www.idnes.cz/sport/archiv/5" == "https:" + "/" + "" + "/" + "www.idnes.cz" + "/" + "sport" + "/archiv/5";
    CategoryIsFourthPiece("https:", "", "www.idnes.cz", "sport", "/archiv/5");
  }

  /**
   * A bare host with a trailing slash still splits into four pieces, so its
   * category is the empty string, not an error; without the slash there is
   * no fourth piece.
   */
  lemma BareHostCategory()
    ensures Category("https://example.com/") == Some("")
    ensures Category("https://example.com") == None
  {
    assert "https://example.com/" == "https:" + "/" + "" + "/" + "example.com" + "/" + "" + "";
    CategoryIsFourthPiece("https:", "", "example.com", "", "");
    var host := "https://example.com";
    assert host == "https:" + ['/'] + ("" + ['/'] + "example.com");
    SplitSeparatorFree("example.com", '/');
    SplitCons("", '/', "example.com");
    SplitCons("https:", '/', "" + ['/'] + "example.com");
  }

  /** The comment count is the value of the first digit run of the label. */
  lemma CommentCountIsFirstRun(caption: string, pre: string, run: string, post: string)
    requires FirstRunAt(caption, pre, run, post)
    ensures CommentCount(caption) == Some(DigitsValue(run))
  {
    FirstDigitRunFinds(caption, pre, run, post);
  }

  /** A label that shows the number `n` between non-digit text gives back `n`. */
  lemma CommentCountOfLabel(pre: string, n: nat, post: string)
    requires NoDigits(pre)
    requires post == [] || !IsDigit(post[0])
    ensures CommentCount(pre + Show(n) + post) == Some(n)
  {
    ShowRoundTrip(n);
    CommentCountIsFirstRun(pre + Show(n) + post, pre, Show(n), post);
  }

  /** There is no comment count exactly when the label has no digit. */
  lemma CommentCountMissing(caption: string)
    ensures CommentCount(caption).None? <==> NoDigits(caption)
  {
    FirstDigitRunNone(caption);
  }

  /** A label containing the numeral 42 gives the count 42. */
  lemma CommentCountShown()
    ensures CommentCount("Zobrazit 42 komentářů") == Some(42)
  {
    assert Show(42) == "42";
    var pre, post := "Zobrazit ", " komentářů";
    assert "Zobrazit 42 komentářů" == pre + Show(42) + post;
    assert NoDigits(pre);
    CommentCountOfLabel(pre, 42, post);
  }

  /** A label without any digit has no comment count. */
  lemma CommentCountNotShown()
    ensures CommentCount("žádné komentáře") == None
  {
    assert NoDigits("žádné komentáře");
    CommentCountMissing("žádné komentáře");
  }

  /**
   * What the XPath queries on one article page returned: the text nodes of
   * the title, the lead paragraph (opener), the body and the date, the number
   * of image nodes in the body container, and the text nodes of the
   * comment-count link.
   */
  datatype Page = Page(
    titles: seq<string>,
    openers: seq<string>,
    bodies: seq<string>,
    imageCount: nat,
    dates: seq<string>,
    commentLabels: seq<string>)

  /** Which `[0]` raised `IndexError`, in the order the extractor evaluates them. */
  datatype ExtractError =
    | NoTitle
    | NoOpener
    | NoBody
    | NoCategory
    | NoDate
    | NoCommentLabel
    | NoCommentDigits

  /**
   * The article the extractor produces from one page and its resolved URL:
   * built from the first text node of each query, then stripped.
   */
  function Extract(page: Page, url: string): Result<ArticleRecord, ExtractError> {
    if |page.titles| == 0 then Failure(NoTitle)
    else if |page.openers| == 0 then Failure(NoOpener)
    else if |page.bodies| == 0 then Failure(NoBody)
    else if Category(url).None? then Failure(NoCategory)
    else if |page.dates| == 0 then Failure(NoDate)
    else if |page.commentLabels| == 0 then Failure(NoCommentLabel)
    else if CommentCount(page.commentLabels[0]).None? then Failure(NoCommentDigits)
    else
      var raw := ArticleRecord(page.titles[0], page.openers[0] + page.bodies[0],
                               Category(url).value, page.imageCount, page.dates[0],
                               CommentCount(page.commentLabels[0]).value);
      Success(StripRecord(raw))
  }

  /**
   * Extraction succeeds exactly when every query matched, the URL has at
   * least three slashes and the comment label holds a digit.
   */
  lemma ExtractSucceeds(page: Page, url: string)
    ensures Extract(page, url).Success? <==>
      && |page.titles| > 0 && |page.openers| > 0 && |page.bodies| > 0
      && Count(url, '/') >= 3
      && |page.dates| > 0 && |page.commentLabels| > 0
      && !NoDigits(page.commentLabels[0])
  {
    CategoryExists(url);
    if |page.commentLabels| > 0 {
      CommentCountMissing(page.commentLabels[0]);
    }
  }

  /**
   * A successful extraction yields a stripped record whose content is the
   * opener followed by the body, trimmed as one string; whose category is
   * the trimmed fourth piece of the URL; whose photo count is the number of
   * images; and whose comment count is the value of the first digit run of
   * the label.
   */
  lemma ExtractedArticle(page: Page, url: string)
    requires Extract(page, url).Success?
    ensures var a := Extract(page, url).value;
      && IsStripped(a)
      && a.title == Strip(page.titles[0])
      && a.content == Strip(page.openers[0] + page.bodies[0])
      && a.category == Strip(Split(url, '/')[3])
      && a.photos == page.imageCount >= 0
      && a.date == Strip(page.dates[0])
      && exists pre, run, post :: FirstRunAt(page.commentLabels[0], pre, run, post) && a.comments == DigitsValue(run)
  {
    var a := Extract(page, url).value;
    var caption := page.commentLabels[0];
    StripRecordIsStripped(ArticleRecord(page.titles[0], page.openers[0] + page.bodies[0],
                                        Category(url).value, page.imageCount, page.dates[0], a.comments));
    FirstDigitRunSound(caption);
    var run := FirstDigitRun(caption).value;
    var pre, post :| FirstRunAt(caption, pre, run, post);
    assert a.comments == DigitsValue(run);
  }

  /**
   * Trimming the concatenated content is not trimming its parts: when the
   * opener has a non-whitespace character and ends in whitespace, and the
   * body has a non-whitespace character, that whitespace stays inside the
   * content, where stripping the opener alone would have removed it.
   */
  lemma ContentIsTrimmedAsAWhole(lead: string, gap: string, body: string)
    requires lead != [] && Trimmed(lead)
    requires gap != [] && AllSpace(gap)
    requires body != [] && Trimmed(body)
    ensures Strip(lead + gap + body) == lead + gap + body
    ensures Strip(lead + gap) + Strip(body) == lead + body
    ensures Strip(lead + gap + body) != Strip(lead + gap) + Strip(body)
  {
    var whole := lead + gap + body;
    assert whole[0] == lead[0] && whole[|whole| - 1] == body[|body| - 1];
    StripUnique([], whole, []);
    assert [] + whole + [] == whole;
    StripUnique([], lead, gap);
    assert [] + lead + gap == lead + gap;
    StripUnique([], body, []);
    assert [] + body + [] == body;
  }

  /**
   * The extractor: reads the first text node of each query, concatenates
   * opener and body, takes the category from the URL, counts the images,
   * parses the comment count, builds an `Article`, strips it and returns its
   * JSON object. Each missing piece stops it with the matching error.
   */
  method GetJson(page: Page, url: string) returns (r: Result<map<string, JsonValue>, ExtractError>)
    ensures r.Success? <==> Extract(page, url).Success?
    ensures r.Failure? ==> r.error == Extract(page, url).error
    ensures r.Success? ==> r.value.Keys == ArticleKeys && FromJson(r.value) == Some(Extract(page, url).value)
  {
    if |page.titles| == 0 {
      return Failure(NoTitle);
    }
    var title := page.titles[0];
    if |page.openers| == 0 {
      return Failure(NoOpener);
    }
    var contentOpener := page.openers[0];
    if |page.bodies| == 0 {
      return Failure(NoBody);
    }
    var content := contentOpener + page.bodies[0];
    var category := Category(url);
    if category.None? {
      return Failure(NoCategory);
    }
    var photos := page.imageCount;
    if |page.dates| == 0 {
      return Failure(NoDate);
    }
    var date := page.dates[0];
    if |page.commentLabels| == 0 {
      return Failure(NoCommentLabel);
    }
    var comments := CommentCount(page.commentLabels[0]);
    if comments.None? {
      return Failure(NoCommentDigits);
    }
    var article := new Article(title, content, category.value, photos, date, comments.value);
    article.StripOutput();
    r := Success(article.GetJson());
  }
}
