/** `get_image_src` and `generate_html` of scripts/update-reading.py: the
    Reading Now card of the home page, built from the parsed reading list.
    Values are inserted into the HTML as they are, without escaping. */
module Render {
  import opened Text
  import opened Config
  import opened Patch

  const AssetDir: string := "/assets/img/"

  /** The indentation of the list items and of the action links. */
  const Pad: string := "                  "

  /** What joins the `<li>` items and the action links. */
  const Indent: string := "\n" + Pad

  predicate IsWebUrl(s: string) {
    StartsWith(s, "http://") || StartsWith(s, "https://")
  }

  /** `get_image_src`: a web address is used as it is, anything else names a
      file under /assets/img/. */
  function ImageSrc(image: string): (src: string)
    ensures EndsWith(src, image)
    ensures src == image <==> IsWebUrl(image)
    ensures !IsWebUrl(image) ==> StartsWith(src, AssetDir) && |src| == |AssetDir| + |image|
  {
    if IsWebUrl(image) then image
    else
      assert (AssetDir + image)[|AssetDir|..] == image;
      AssetDir + image
  }

  /** A local cover is never taken for a web address. */
  lemma LocalStaysLocal(image: string)
    requires !IsWebUrl(image)
    ensures !IsWebUrl(ImageSrc(image))
  {
    var src := ImageSrc(image);
    assert src[0] == '/';
  }

  /** `name="value"`, an attribute as the templates write it. */
  function Attr(name: string, value: string): string {
    name + "=\"" + value + "\""
  }

  /** The fixed runs of markup and indentation in the templates of
      generate_html, between the values that are put into them. The
      properties below hold whatever this text is; `Site()` is the text the
      script writes. */
  datatype Layout = Layout(
    fullWidthClose: string,
    pairOpen: string, pairMiddle: string, pairClose: string,
    actionGap: string, actionMiddle: string, actionClose: string,
    cardOpen: string, afterImage: string, afterSummary: string, afterDetails: string, cardClose: string)

  function Site(): Layout {
    Layout(
      " style=\"width: 100%;\"\n                    class=\"activator\">",
      "<div style=\"display: flex; justify-content: space-between;\">\n                  <img ",
      " style=\"width: 48%;\"\n                    class=\"activator\">\n                  <img ",
      "\n                    style=\"width: 48%;\" class=\"activator\">\n                </div>",
      "\n                    ",
      " target=\"_blank\"\n                    data-position=\"top\" ",
      "\n                    class=\"btn-floating btn-large waves-effect waves-light blue-grey tooltipped\">\n                    <i class=\"fa fa-book\"></i>\n                  </a>",
      "\n          <div class=\"col s12 m6 l4\">\n            <div class=\"card medium\">\n              <div class=\"card-image waves-effect waves-block waves-light\">\n                ",
      "\n              </div>\n              <div class=\"card-content\">\n                <span class=\"card-title activator teal-text hoverline\">Reading Now\n                  <i class=\"mdi-navigation-more-vert right\"></i>\n                </span>\n                <p>\n                  ",
      "\n                </p>\n              </div>\n              <div class=\"card-reveal\">\n                <span class=\"card-title grey-text\">\n                  <small>Details</small>\n                  <i class=\"mdi-navigation-close right\"></i>\n                </span>\n                <ul>\n                  ",
      "\n                </ul>\n                <div class=\"card-action\">\n                  ",
      "\n                </div>\n              </div>\n            </div>\n          </div>\n          ")
  }

  /** One book: its cover across the width of the card, with the title as
      its alternative text. */
  function FullWidthImage(l: Layout, b: Book): (html: string)
    ensures Occurs(html, Attr("alt", b.title), 5)
    ensures Occurs(html, Attr("src", ImageSrc(b.image)), 5 + |Attr("alt", b.title)| + 1)
  {
    var alt := Attr("alt", b.title);
    var src := Attr("src", ImageSrc(b.image));
    TwoHoles("<img ", alt, " ", src, l.fullWidthClose);
    "<img " + alt + " " + src + l.fullWidthClose
  }

  /** Two books or more: the covers of the first two, side by side, each
      with its title as alternative text. The first book's `<img>` comes
      first, so it is on the left, and each `alt` is followed by its own
      book's `src`. */
  function SideBySideImages(l: Layout, b0: Book, b1: Book): (html: string)
    ensures var alt0, src0 := Attr("alt", b0.title), Attr("src", ImageSrc(b0.image));
      var alt1, src1 := Attr("alt", b1.title), Attr("src", ImageSrc(b1.image));
      Occurs(html, alt0, |l.pairOpen|) && Occurs(html, src0, |l.pairOpen + alt0 + " "|)
      && Occurs(html, alt1, |l.pairOpen + alt0 + " " + src0 + l.pairMiddle|)
      && Occurs(html, src1, |l.pairOpen + alt0 + " " + src0 + l.pairMiddle + alt1 + " "|)
  {
    var alt0 := Attr("alt", b0.title);
    var src0 := Attr("src", ImageSrc(b0.image));
    var alt1 := Attr("alt", b1.title);
    var src1 := Attr("src", ImageSrc(b1.image));
    FourHoles(l.pairOpen, alt0, " ", src0, l.pairMiddle, alt1, " ", src1, l.pairClose);
    l.pairOpen + alt0 + " " + src0 + l.pairMiddle + alt1 + " " + src1 + l.pairClose
  }

  /** The image part of the card. The source indexes `books[0]` in every case,
      so a list without books is outside its domain. */
  function ImageSection(l: Layout, books: seq<Book>): string
    requires |books| >= 1
  {
    if |books| == 1 then FullWidthImage(l, books[0]) else SideBySideImages(l, books[0], books[1])
  }

  /** The author in parentheses, or nothing when the book has none. */
  function Byline(b: Book): string {
    if b.author != "" then " (" + b.author + ")" else ""
  }

  /** One `<li>` of the details list. */
  function DetailItem(b: Book): (li: string)
    ensures StartsWith(li, "<li>" + b.title) && EndsWith(li, ": " + b.description + "</li>")
    ensures b.author == "" ==> li == "<li>" + b.title + ": " + b.description + "</li>"
    ensures b.author != "" ==> li == "<li>" + b.title + " (" + b.author + "): " + b.description + "</li>"
  {
    var head := "<li>" + b.title;
    var tail := ": " + b.description + "</li>";
    var li := head + Byline(b) + tail;
    assert li[..|head|] == head;
    assert li[|li| - |tail|..] == tail;
    li
  }

  /** The text of a book's button, both as its label and as its tooltip. */
  function FindLabel(b: Book): string {
    "Find `" + b.title + "` on " + b.buyLabel
  }

  /** One action link: a button to the page where the book can be found,
      labelled for screen readers and with a tooltip. */
  function ActionItem(l: Layout, b: Book): (a: string)
    ensures Occurs(a, Attr("aria-label", FindLabel(b)), 3)
    ensures exists i :: Occurs(a, Attr("href", b.buyUrl), i)
    ensures exists i :: Occurs(a, Attr("data-tooltip", FindLabel(b)), i)
  {
    var aria := Attr("aria-label", FindLabel(b));
    var href := Attr("href", b.buyUrl);
    var tip := Attr("data-tooltip", FindLabel(b));
    ThreeHoles("<a ", aria, l.actionGap, href, l.actionMiddle, tip, l.actionClose);
    "<a " + aria + l.actionGap + href + l.actionMiddle + tip + l.actionClose
  }

  /** The `<li>` items, one per book, in the order of the books. */
  function DetailItems(books: seq<Book>): (items: seq<string>)
    ensures |items| == |books|
    ensures forall k :: 0 <= k < |books| ==> items[k] == DetailItem(books[k])
  {
    if |books| == 0 then [] else DetailItems(books[..|books| - 1]) + [DetailItem(books[|books| - 1])]
  }

  /** The action links, one per book, in the order of the books. */
  function ActionItems(l: Layout, books: seq<Book>): (items: seq<string>)
    ensures |items| == |books|
    ensures forall k :: 0 <= k < |books| ==> items[k] == ActionItem(l, books[k])
  {
    if |books| == 0 then [] else ActionItems(l, books[..|books| - 1]) + [ActionItem(l, books[|books| - 1])]
  }

  function DetailsHtml(books: seq<Book>): string {
    Join(DetailItems(books), Indent)
  }

  function ActionsHtml(l: Layout, books: seq<Book>): string {
    Join(ActionItems(l, books), Indent)
  }

  /** The card's template between its two markers, which holds the four
      parts in the template's order: image, summary, details, actions. */
  function CardBody(l: Layout, imageHtml: string, summary: string, detailsHtml: string, actionsHtml: string): (body: string)
    ensures var p1 := |l.cardOpen|;
      var p2 := p1 + |imageHtml| + |l.afterImage|;
      var p3 := p2 + |summary| + |l.afterSummary|;
      var p4 := p3 + |detailsHtml| + |l.afterDetails|;
      Occurs(body, imageHtml, p1) && Occurs(body, summary, p2) && Occurs(body, detailsHtml, p3)
      && Occurs(body, actionsHtml, p4) && |body| == p4 + |actionsHtml| + |l.cardClose|
  {
    FourHoles(l.cardOpen, imageHtml, l.afterImage, summary, l.afterSummary, detailsHtml, l.afterDetails,
              actionsHtml, l.cardClose);
    l.cardOpen + imageHtml + l.afterImage + summary + l.afterSummary + detailsHtml + l.afterDetails
      + actionsHtml + l.cardClose
  }

  /** The card's f-string with its four holes filled, from the marker of the
      Reading Now section to the marker of the next one. */
  function Assemble(l: Layout, imageHtml: string, summary: string, detailsHtml: string, actionsHtml: string): string {
    StartMarker + CardBody(l, imageHtml, summary, detailsHtml, actionsHtml) + EndMarker
  }

  /** The card for a reading list, in a layout. */
  function Card(l: Layout, data: Reading): string
    requires |data.books| >= 1
  {
    Assemble(l, ImageSection(l, data.books), data.summary, DetailsHtml(data.books), ActionsHtml(l, data.books))
  }

  /** `generate_html`: the card as the script writes it. */
  method GenerateHtml(data: Reading) returns (html: string)
    requires |data.books| >= 1
    ensures html == Card(Site(), data)
  {
    html := BuildCard(Site(), data);
  }

  /** The body of `generate_html`: the image part, the two loops over the
      books, and the card put together around them. */
  method BuildCard(l: Layout, data: Reading) returns (html: string)
    requires |data.books| >= 1
    ensures html == Card(l, data)
  {
    var books := data.books;
    var imageHtml := ImageSection(l, books);
    var detailsHtml := BuildDetails(books);
    var actionsHtml := BuildActions(l, books);
    html := Assemble(l, imageHtml, data.summary, detailsHtml, actionsHtml);
  }

  /** The first loop of `generate_html`: the details list. */
  method BuildDetails(books: seq<Book>) returns (html: string)
    ensures html == DetailsHtml(books)
  {
    var items: seq<string> := [];
    for i := 0 to |books|
      invariant items == DetailItems(books[..i])
    {
      items := items + [DetailItem(books[i])];
      assert books[..i + 1][..i] == books[..i];
    }
    assert books[..|books|] == books;
    html := Join(items, Indent);
  }

  /** The second loop of `generate_html`: the action links. */
  method BuildActions(l: Layout, books: seq<Book>) returns (html: string)
    ensures html == ActionsHtml(l, books)
  {
    var items: seq<string> := [];
    for i := 0 to |books|
      invariant items == ActionItems(l, books[..i])
    {
      items := items + [ActionItem(l, books[i])];
      assert books[..i + 1][..i] == books[..i];
    }
    assert books[..|books|] == books;
    html := Join(items, Indent);
  }

  /** Right after the title, the author in parentheses is there exactly when
      the book names one. */
  lemma DetailNamesAuthor(b: Book)
    ensures Occurs(DetailItem(b), " (" + b.author + ")", 4 + |b.title|) <==> b.author != ""
  {
    var head := "<li>" + b.title;
    var tail := ": " + b.description + "</li>";
    if b.author != "" {
      OccursBetween(head, Byline(b), tail);
    } else {
      assert DetailItem(b)[|head|] == ':';
    }
  }

  /** Fields without line breaks, as the reading list's parser delivers them. */
  predicate OneLine(b: Book) {
    '\n' !in b.title && '\n' !in b.author && '\n' !in b.description
  }

  lemma DetailItemOneLine(b: Book)
    requires OneLine(b)
    ensures '\n' !in DetailItem(b)
  {
  }

  /** The list's indentation is blanks only. */
  lemma PadOneLine()
    ensures '\n' !in Pad && Indent == "\n" + Pad
  {
  }

  /** The details list has one line per book: the first `<li>` on the line of
      the template, every later one on its own line at the list's indentation. */
  lemma DetailLines(books: seq<Book>)
    requires |books| >= 1
    requires forall k :: 0 <= k < |books| ==> OneLine(books[k])
    ensures var lines := Split(DetailsHtml(books), '\n');
      |lines| == |books| && lines[0] == DetailItem(books[0])
      && forall k :: 1 <= k < |books| ==> lines[k] == Pad + DetailItem(books[k])
  {
    var items := DetailItems(books);
    forall k | 0 <= k < |items|
      ensures '\n' !in items[k]
    {
      DetailItemOneLine(books[k]);
    }
    PadOneLine();
    IndentedLines(items, Pad);
  }

  /** The same, for the books of a parsed reading list. */
  lemma ParsedDetailLines(content: string)
    requires |ReadingOf(content).books| >= 1
    ensures var books := ReadingOf(content).books;
      var lines := Split(DetailsHtml(books), '\n');
      |lines| == |books| && lines[0] == DetailItem(books[0])
      && forall k :: 1 <= k < |books| ==> lines[k] == Pad + DetailItem(books[k])
  {
    var books := ReadingOf(content).books;
    forall k | 0 <= k < |books|
      ensures OneLine(books[k])
    {
      ValuesAreClean(content, k);
    }
    DetailLines(books);
  }

  /** Every book has its `<li>` in the details list. */
  lemma EveryBookListed(books: seq<Book>, k: nat)
    requires k < |books|
    ensures exists i :: Occurs(DetailsHtml(books), DetailItem(books[k]), i)
  {
    var items := DetailItems(books);
    OccursInJoin(items, Indent, k);
    var i :| Occurs(Join(items, Indent), items[k], i);
    assert Occurs(DetailsHtml(books), DetailItem(books[k]), i);
  }

  /** Every book has a button leading to its buy_url among the action links. */
  lemma EveryBookLinked(l: Layout, books: seq<Book>, k: nat)
    requires k < |books|
    ensures exists i :: Occurs(ActionsHtml(l, books), Attr("href", books[k].buyUrl), i)
  {
    var items := ActionItems(l, books);
    OccursInJoin(items, Indent, k);
    var i :| Occurs(ActionsHtml(l, books), items[k], i);
    var j :| Occurs(items[k], Attr("href", books[k].buyUrl), j);
    OccursWithin(ActionsHtml(l, books), items[k], i, Attr("href", books[k].buyUrl), j);
  }

  /** The first two books, and only they, have their covers on the card, each
      with its title as alternative text. */
  lemma CoversShown(l: Layout, books: seq<Book>, k: nat)
    requires k < |books| && k < 2
    ensures exists i :: Occurs(ImageSection(l, books), Attr("alt", books[k].title), i)
    ensures exists i :: Occurs(ImageSection(l, books), Attr("src", ImageSrc(books[k].image)), i)
  {
    if |books| == 1 {
      assert ImageSection(l, books) == FullWidthImage(l, books[0]);
      assert Occurs(ImageSection(l, books), Attr("alt", books[0].title), 5);
    } else {
      assert ImageSection(l, books) == SideBySideImages(l, books[0], books[1]);
      assert books[k] == books[0] || books[k] == books[1];
    }
  }

  /** Books after the second do not change the image part. */
  lemma CoversOfFirstTwo(l: Layout, books: seq<Book>)
    requires |books| >= 2
    ensures ImageSection(l, books) == ImageSection(l, books[..2])
  {
  }

  /** The card runs from the Reading Now marker to the marker of the next
      section, so it replaces the section between them as a whole. */
  lemma CardFramed(l: Layout, data: Reading)
    requires |data.books| >= 1
    ensures StartsWith(Card(l, data), StartMarker) && EndsWith(Card(l, data), EndMarker)
  {
    var books := data.books;
    Framed(StartMarker, CardBody(l, ImageSection(l, books), data.summary, DetailsHtml(books), ActionsHtml(l, books)),
           EndMarker);
  }

  /** The card shows the summary, and every book's `<li>` and button. */
  lemma CardShowsEveryBook(l: Layout, data: Reading, k: nat)
    requires k < |data.books|
    ensures exists i :: Occurs(Card(l, data), data.summary, i)
    ensures exists i :: Occurs(Card(l, data), DetailItem(data.books[k]), i)
    ensures exists i :: Occurs(Card(l, data), Attr("href", data.books[k].buyUrl), i)
  {
    var books := data.books;
    var details := DetailsHtml(books);
    var actions := ActionsHtml(l, books);
    var body := CardBody(l, ImageSection(l, books), data.summary, details, actions);
    var card := StartMarker + body + EndMarker;
    assert card == Card(l, data);
    var s :| Occurs(body, data.summary, s);
    OccursShift(StartMarker, body, data.summary, s);
    OccursExtend(StartMarker + body, EndMarker, data.summary, |StartMarker| + s);
    var d :| Occurs(body, details, d);
    OccursShift(StartMarker, body, details, d);
    OccursExtend(StartMarker + body, EndMarker, details, |StartMarker| + d);
    EveryBookListed(books, k);
    var i :| Occurs(details, DetailItem(books[k]), i);
    OccursWithin(card, details, |StartMarker| + d, DetailItem(books[k]), i);
    var a :| Occurs(body, actions, a);
    OccursShift(StartMarker, body, actions, a);
    OccursExtend(StartMarker + body, EndMarker, actions, |StartMarker| + a);
    EveryBookLinked(l, books, k);
    var j :| Occurs(actions, Attr("href", books[k].buyUrl), j);
    OccursWithin(card, actions, |StartMarker| + a, Attr("href", books[k].buyUrl), j);
  }
}
