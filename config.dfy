/** `parse_yaml` of scripts/update-reading.py: the summary and the list of books
    of reading.yaml, read with regular expressions line by line. Every value is
    looked up with a double-quoted pattern first and an unquoted one second; a
    value that is found nowhere is "", never an error. */
module Config {
  import opened Text

  datatype Book = Book(title: string, author: string, image: string,
                       buyUrl: string, buyLabel: string, description: string)

  datatype Reading = Reading(summary: string, books: seq<Book>)

  /** The keys read from every book block, in the order the parser reads them. */
  const FieldNames: seq<string> := ["title", "author", "image", "buy_url", "buy_label", "description"]

  const SummaryKey: string := "summary:"

  /** A regular expression applied to one line: what it captures, if it matches. */
  type Regex = string -> Option<string>

  /** The lines of a text: `^` and `$` in multi-line mode, and `.`, stop at '\n'. */
  function Lines(content: string): (ls: seq<string>)
    ensures |ls| >= 1
    ensures forall i :: 0 <= i < |ls| ==> '\n' !in ls[i]
  {
    Split(content, '\n')
  }

  /** `\s*"(.+)"` from index `at` of a line: the text between the opening
      quote and the last quote of the line, at least one character long. */
  function Quoted(line: string, at: nat): Option<string>
    requires at <= |line|
  {
    var b := SkipSpaces(line, at);
    if b < |line| && line[b] == '"' then
      var j := LastIndex(line, '"');
      if j.Some? && j.value >= b + 2 then Some(line[b + 1..j.value]) else None
    else None
  }

  /** `\s*"(.+)"$` from index `at` of a line: the closing quote must end the line. */
  function QuotedToEnd(line: string, at: nat): Option<string>
    requires at <= |line|
  {
    var b := SkipSpaces(line, at);
    if b + 3 <= |line| && line[b] == '"' && line[|line| - 1] == '"' then Some(line[b + 1..|line| - 1]) else None
  }

  /** `\s*(.+)` from index `at` up to the end of a line: the rest of the line
      after the blanks, when something is left. */
  function Unquoted(line: string, at: nat): Option<string>
    requires at <= |line|
  {
    var b := SkipSpaces(line, at);
    if b < |line| then Some(line[b..]) else None
  }

  /** The index just after `key:` on a line whose first non-blank text is `key:`. */
  function AfterKey(line: string, key: string): (r: Option<nat>)
    ensures r.Some? ==> r.value <= |line|
  {
    var b := SkipSpaces(line, 0);
    if b + |key| + 1 <= |line| && line[b..b + |key|] == key && line[b + |key|] == ':' then Some(b + |key| + 1)
    else None
  }

  /** `^summary:\s*"(.+)"$` on one line. */
  function QuotedSummary(line: string): Option<string> {
    if StartsWith(line, SummaryKey) then QuotedToEnd(line, |SummaryKey|) else None
  }

  /** `^summary:\s*(.+)$` on one line. */
  function UnquotedSummary(line: string): Option<string> {
    if StartsWith(line, SummaryKey) then Unquoted(line, |SummaryKey|) else None
  }

  /** `key:\s*"(.+)"` on one line. */
  function QuotedField(key: string, line: string): Option<string> {
    var at := AfterKey(line, key);
    if at.Some? then Quoted(line, at.value) else None
  }

  /** `key:\s*(.+?)(?:\n|$)` on one line. */
  function UnquotedField(key: string, line: string): Option<string> {
    var at := AfterKey(line, key);
    if at.Some? then Unquoted(line, at.value) else None
  }

  function QuotedFieldRegex(key: string): Regex {
    line => QuotedField(key, line)
  }

  function UnquotedFieldRegex(key: string): Regex {
    line => UnquotedField(key, line)
  }

  /** `re.search`: the index of the first line on which `re` matches. */
  function FirstHit(lines: seq<string>, re: Regex): (r: Option<nat>)
    ensures r.Some? ==> r.value < |lines| && re(lines[r.value]).Some?
    ensures r.Some? ==> forall j :: 0 <= j < r.value ==> re(lines[j]).None?
    ensures r.None? ==> forall j :: 0 <= j < |lines| ==> re(lines[j]).None?
  {
    if |lines| == 0 then None
    else if re(lines[0]).Some? then Some(0)
    else
      var r := FirstHit(lines[1..], re);
      if r.Some? then Some(r.value + 1) else None
  }

  /** The value the parser assigns: the stripped capture of the first line the
      quoted pattern matches; failing that, of the first line the unquoted
      pattern matches; failing both, "". */
  function Extract(lines: seq<string>, quoted: Regex, unquoted: Regex): (v: string)
    ensures IsTrimmed(v)
  {
    var q := FirstHit(lines, quoted);
    if q.Some? then Trim(quoted(lines[q.value]).value)
    else
      var u := FirstHit(lines, unquoted);
      if u.Some? then Trim(unquoted(lines[u.value]).value) else ""
  }

  /** The summary of the whole text. */
  function Summary(lines: seq<string>): string {
    Extract(lines, QuotedSummary, UnquotedSummary)
  }

  /** The value of one field in a book block. */
  function FieldValue(block: seq<string>, key: string): string {
    Extract(block, QuotedFieldRegex(key), UnquotedFieldRegex(key))
  }

  /** The text that ends every delimiter and is put back in front of each block. */
  function TitleKey(): string {
    "title:"
  }

  /** On a line that ends a `\n\s*-\s+title:` delimiter (indentation, a dash,
      at least one blank, then `title:`), the index just after `title:`. */
  function TitleAt(line: string): (r: Option<nat>)
    ensures r.Some? ==> |TitleKey()| <= r.value <= |line| && line[r.value - |TitleKey()|..r.value] == TitleKey()
  {
    var b := SkipSpaces(line, 0);
    if b + 1 < |line| && line[b] == '-' && IsSpace(line[b + 1]) then
      var c := SkipSpaces(line, b + 1);
      if c + |TitleKey()| <= |line| && line[c..c + |TitleKey()|] == TitleKey() then Some(c + |TitleKey()|) else None
    else None
  }

  predicate IsBookStart(line: string) {
    TitleAt(line).Some?
  }

  /** `"title:" + block`: the delimiter cut away and `title:` put back. */
  function Retitle(line: string): (r: string)
    requires IsBookStart(line)
  {
    TitleKey() + line[TitleAt(line).value..]
  }

  /** The number of leading lines that do not start a book. */
  function BodyLength(ls: seq<string>): (n: nat)
    ensures n <= |ls|
    ensures forall i {:trigger IsBookStart(ls[i])} :: 0 <= i < n ==> !IsBookStart(ls[i])
    ensures n < |ls| ==> IsBookStart(ls[n])
  {
    if |ls| == 0 || IsBookStart(ls[0]) then 0 else 1 + BodyLength(ls[1..])
  }

  /** `re.split(r'\n\s*-\s+title:', content)[1:]`, as lines: one block per
      delimiter line, holding that line (with `title:` restored) and the lines
      up to the next delimiter; the lines before the first delimiter are dropped. */
  function Blocks(ls: seq<string>): (bs: seq<seq<string>>)
    ensures forall k :: 0 <= k < |bs| ==> |bs[k]| >= 1
  {
    if |ls| == 0 then []
    else if !IsBookStart(ls[0]) then Blocks(ls[1..])
    else
      var n := BodyLength(ls[1..]);
      [[Retitle(ls[0])] + ls[1..1 + n]] + Blocks(ls[1 + n..])
  }

  /** The number of delimiter lines. */
  function CountStarts(ls: seq<string>): nat {
    if |ls| == 0 then 0 else (if IsBookStart(ls[0]) then 1 else 0) + CountStarts(ls[1..])
  }

  function BookOf(block: seq<string>): Book {
    Book(FieldValue(block, FieldNames[0]), FieldValue(block, FieldNames[1]), FieldValue(block, FieldNames[2]),
         FieldValue(block, FieldNames[3]), FieldValue(block, FieldNames[4]), FieldValue(block, FieldNames[5]))
  }

  /** One book per block, in block order. */
  function BooksOf(blocks: seq<seq<string>>): (books: seq<Book>)
    ensures |books| == |blocks|
  {
    if |blocks| == 0 then [] else BooksOf(blocks[..|blocks| - 1]) + [BookOf(blocks[|blocks| - 1])]
  }

  /** The result of `parse_yaml` on a text. The delimiter starts with '\n', so
      the first line can never open a book. */
  function ReadingOf(content: string): Reading {
    var ls := Lines(content);
    Reading(Summary(ls), BooksOf(Blocks(ls[1..])))
  }

  /** The body of `parse_yaml`'s loop over blocks: a dictionary filled field
      by field, trying the quoted pattern before the unquoted one. */
  method ParseBook(block: seq<string>) returns (book: Book)
    ensures book == BookOf(block)
  {
    // the dictionary, kept as its values in the order of FieldNames
    var values: seq<string> := [];
    for f := 0 to |FieldNames|
      invariant |values| == f
      invariant forall g :: 0 <= g < f ==> values[g] == FieldValue(block, FieldNames[g])
    {
      var field := FieldNames[f];
      var re := QuotedFieldRegex(field);
      var found := FirstHit(block, re);
      if found.None? {
        re := UnquotedFieldRegex(field);
        found := FirstHit(block, re);
      }
      if found.Some? {
        values := values + [Trim(re(block[found.value]).value)];
      } else {
        values := values + [""];
      }
    }
    book := Book(values[0], values[1], values[2], values[3], values[4], values[5]);
  }

  /** `parse_yaml`: the summary search, then one book per block, appended in order. */
  method ParseYaml(content: string) returns (result: Reading)
    ensures result == ReadingOf(content)
  {
    var lines := Lines(content);
    var summary := Summary(lines);
    var books := ParseBlocks(Blocks(lines[1..]));
    result := Reading(summary, books);
  }

  /** `parse_yaml`'s loop over the blocks: each block's book appended in turn. */
  method ParseBlocks(blocks: seq<seq<string>>) returns (books: seq<Book>)
    ensures books == BooksOf(blocks)
  {
    books := [];
    for b := 0 to |blocks|
      invariant books == BooksOf(blocks[..b])
    {
      var book := ParseBook(blocks[b]);
      BooksOfSnoc(blocks, b);
      books := books + [book];
    }
    assert blocks[..|blocks|] == blocks;
  }

  /** BooksOf of one more block appends that block's book. */
  lemma BooksOfSnoc(blocks: seq<seq<string>>, b: nat)
    requires b < |blocks|
    ensures BooksOf(blocks[..b + 1]) == BooksOf(blocks[..b]) + [BookOf(blocks[b])]
  {
    assert blocks[..b + 1][..b] == blocks[..b];
  }

  // ---- properties of the parser ----

  /** Blanks followed by a non-blank (or the end) are skipped in one go. */
  lemma {:induction false} SkipBlanks(s: string, i: nat, n: nat)
    requires i + n <= |s|
    requires forall k :: i <= k < i + n ==> IsSpace(s[k])
    requires i + n < |s| ==> !IsSpace(s[i + n])
    ensures SkipSpaces(s, i) == i + n
    decreases n
  {
    if n > 0 {
      SkipBlanks(s, i + 1, n - 1);
    }
  }

  /** `"` is not whitespace. */
  lemma QuoteIsNotSpace()
    ensures !IsSpace('"')
  {
  }

  /** The blanks `gap` between `pre` and a non-blank are skipped in one go. */
  lemma {:induction false} SkipGap(pre: string, gap: string, post: string)
    requires forall k :: 0 <= k < |gap| ==> IsSpace(gap[k])
    requires post != [] ==> !IsSpace(post[0])
    ensures SkipSpaces(pre + gap + post, |pre|) == |pre| + |gap|
  {
    var s := pre + gap + post;
    forall k | |pre| <= k < |pre| + |gap|
      ensures IsSpace(s[k])
    {
      assert s[k] == gap[k - |pre|];
    }
    if post != [] {
      assert s[|pre| + |gap|] == post[0];
    }
    SkipBlanks(s, |pre|, |gap|);
  }

  /** The key of a line `<indent>key:<rest>` is found, and the value starts
      right after its colon. */
  lemma {:induction false} KeyFound(line: string, indent: string, key: string, rest: string)
    requires line == indent + key + ":" + rest
    requires forall k :: 0 <= k < |indent| ==> IsSpace(indent[k])
    requires key != [] && !IsSpace(key[0])
    ensures AfterKey(line, key) == Some(|indent| + |key| + 1)
  {
    var post := key + ":" + rest;
    assert line == [] + indent + post;
    SkipGap([], indent, post);
    assert line[|indent|..|indent| + |key|] == key;
  }

  /** On one line, `key:<blanks>"v"` gives `v` to the quoted pattern. */
  lemma {:induction false} QuotedLine(line: string, indent: string, key: string, gap: string, v: string)
    requires line == indent + key + ":" + gap + "\"" + v + "\""
    requires forall k :: 0 <= k < |indent| ==> IsSpace(indent[k])
    requires forall k :: 0 <= k < |gap| ==> IsSpace(gap[k])
    requires key != [] && !IsSpace(key[0]) && v != []
    ensures QuotedField(key, line) == Some(v)
  {
    var pre := indent + key + ":";
    var post := "\"" + v + "\"";
    assert line == pre + gap + post;
    KeyFound(line, indent, key, gap + post);
    QuoteIsNotSpace();
    SkipGap(pre, gap, post);
    var b := |pre| + |gap|;
    assert SkipSpaces(line, |pre|) == b;
    assert line[b] == '"';
    assert LastIndex(line, '"') == Some(|line| - 1);
    assert line[b + 1..|line| - 1] == v;
    assert Quoted(line, |pre|) == Some(v);
  }

  /** On one line, `key:<blanks>v` with `v` not opening a quote gives `v` to
      the unquoted pattern and nothing to the quoted one. */
  lemma {:induction false} UnquotedLine(line: string, indent: string, key: string, gap: string, v: string)
    requires line == indent + key + ":" + gap + v
    requires forall k :: 0 <= k < |indent| ==> IsSpace(indent[k])
    requires forall k :: 0 <= k < |gap| ==> IsSpace(gap[k])
    requires key != [] && !IsSpace(key[0]) && v != [] && !IsSpace(v[0]) && v[0] != '"'
    ensures QuotedField(key, line).None? && UnquotedField(key, line) == Some(v)
  {
    var pre := indent + key + ":";
    assert line == pre + gap + v;
    KeyFound(line, indent, key, gap + v);
    SkipGap(pre, gap, v);
    var b := |pre| + |gap|;
    assert SkipSpaces(line, |pre|) == b;
    assert line[b..] == v;
    assert line[b] == v[0];
    assert Quoted(line, |pre|).None?;
    assert Unquoted(line, |pre|) == Some(v);
  }

  /** A line `<indent>key:<blanks>"v"` is read back as `v`, whatever quotes or
      apostrophes `v` holds, provided no earlier line of the block has the key. */
  lemma {:induction false} QuotedFieldRoundTrip(block: seq<string>, i: nat, indent: string, key: string, gap: string, v: string)
    requires i < |block|
    requires block[i] == indent + key + ":" + gap + "\"" + v + "\""
    requires forall k :: 0 <= k < |indent| ==> IsSpace(indent[k])
    requires forall k :: 0 <= k < |gap| ==> IsSpace(gap[k])
    requires key != [] && !IsSpace(key[0])
    requires v != [] && IsTrimmed(v)
    requires forall j :: 0 <= j < i ==> AfterKey(block[j], key).None?
    ensures FieldValue(block, key) == v
  {
    QuotedLine(block[i], indent, key, gap, v);
    assert QuotedFieldRegex(key)(block[i]) == Some(v);
    forall j | 0 <= j < i
      ensures QuotedFieldRegex(key)(block[j]).None?
    {
    }
    assert FirstHit(block, QuotedFieldRegex(key)) == Some(i);
  }

  /** A line `<indent>key:<blanks>v`, with `v` not opening a quote, is read back
      as `v` when no line of the block has a quoted value for the key and no
      earlier line has the key at all: the first unquoted line wins. */
  lemma {:induction false} UnquotedFieldRoundTrip(block: seq<string>, i: nat, indent: string, key: string, gap: string, v: string)
    requires i < |block|
    requires block[i] == indent + key + ":" + gap + v
    requires forall k :: 0 <= k < |indent| ==> IsSpace(indent[k])
    requires forall k :: 0 <= k < |gap| ==> IsSpace(gap[k])
    requires key != [] && !IsSpace(key[0])
    requires v != [] && IsTrimmed(v) && v[0] != '"'
    requires forall j :: 0 <= j < |block| && j != i ==> QuotedField(key, block[j]).None?
    requires forall j :: 0 <= j < i ==> AfterKey(block[j], key).None?
    ensures FieldValue(block, key) == v
  {
    UnquotedLine(block[i], indent, key, gap, v);
    assert QuotedFieldRegex(key)(block[i]).None?;
    assert UnquotedFieldRegex(key)(block[i]) == Some(v);
    forall j | 0 <= j < |block|
      ensures QuotedFieldRegex(key)(block[j]).None?
    {
    }
    forall j | 0 <= j < i
      ensures UnquotedFieldRegex(key)(block[j]).None?
    {
    }
    assert FirstHit(block, QuotedFieldRegex(key)).None?;
    assert FirstHit(block, UnquotedFieldRegex(key)) == Some(i);
  }

  /** A field whose key is on no line of the block is "", not an error. */
  lemma FieldMissing(block: seq<string>, key: string)
    requires forall j :: 0 <= j < |block| ==> AfterKey(block[j], key).None?
    ensures FieldValue(block, key) == ""
  {
    forall j | 0 <= j < |block|
      ensures QuotedFieldRegex(key)(block[j]).None? && UnquotedFieldRegex(key)(block[j]).None?
    {
    }
    assert FirstHit(block, QuotedFieldRegex(key)).None?;
  }

  /** A quoted value anywhere in the block wins over an unquoted one on an
      earlier line: the value is that of the first quoted line. */
  lemma QuotedWins(block: seq<string>, key: string, i: nat)
    requires i < |block| && QuotedField(key, block[i]).Some?
    requires forall j :: 0 <= j < i ==> QuotedField(key, block[j]).None?
    ensures FieldValue(block, key) == Trim(QuotedField(key, block[i]).value)
  {
    forall j | 0 <= j < i
      ensures QuotedFieldRegex(key)(block[j]).None?
    {
    }
    assert FirstHit(block, QuotedFieldRegex(key)) == Some(i);
  }

  /** `key: ""` does not match the quoted pattern (it needs one character
      between the quotes), so the unquoted pattern reads the two quote
      characters themselves. */
  lemma EmptyQuotesAreKept(key: string)
    requires key != [] && !IsSpace(key[0])
    ensures FieldValue([key + ": \"\""], key) == "\"\""
  {
    var line := key + ": \"\"";
    SkipBlanks(line, 0, 0);
    assert line[..|key|] == key;
    assert AfterKey(line, key) == Some(|key| + 1);
    QuoteIsNotSpace();
    SkipBlanks(line, |key| + 1, 1);
    assert LastIndex(line, '"') == Some(|line| - 1);
    assert QuotedField(key, line).None?;
    assert line[|key| + 2..] == "\"\"";
    assert UnquotedField(key, line) == Some("\"\"");
    assert FirstHit([line], QuotedFieldRegex(key)).None?;
    assert FirstHit([line], UnquotedFieldRegex(key)) == Some(0);
  }

  /** Lines that start no book do not change the count. */
  lemma {:induction false} CountStartsSkip(ls: seq<string>, n: nat)
    requires n <= |ls|
    requires forall i {:trigger IsBookStart(ls[i])} :: 0 <= i < n ==> !IsBookStart(ls[i])
    ensures CountStarts(ls) == CountStarts(ls[n..])
  {
    if n > 0 {
      CountStartsSkip(ls[1..], n - 1);
      assert ls[1..][n - 1..] == ls[n..];
    }
  }

  /** There is one block per delimiter line: one book per `- title:`. */
  lemma {:induction false} BlockCount(ls: seq<string>)
    ensures |Blocks(ls)| == CountStarts(ls)
    decreases |ls|
  {
    if |ls| > 0 {
      if !IsBookStart(ls[0]) {
        BlockCount(ls[1..]);
      } else {
        var n := BodyLength(ls[1..]);
        BlockCount(ls[1 + n..]);
        CountStartsSkip(ls[1..], n);
        assert ls[1..][n..] == ls[1 + n..];
      }
    }
  }

  /** The text before the first delimiter is dropped. */
  lemma {:induction false} PreludeDropped(prelude: seq<string>, rest: seq<string>)
    requires forall i {:trigger IsBookStart(prelude[i])} :: 0 <= i < |prelude| ==> !IsBookStart(prelude[i])
    ensures Blocks(prelude + rest) == Blocks(rest)
  {
    if |prelude| > 0 {
      var all := prelude + rest;
      PreludeDropped(prelude[1..], rest);
      assert all[0] == prelude[0] && !IsBookStart(all[0]);
      assert all[1..] == prelude[1..] + rest;
      assert Blocks(all) == Blocks(all[1..]);
    } else {
      assert prelude + rest == rest;
    }
  }

  /** A delimiter line with its `- ` cut away, any other line as it is. */
  function Normalized(ls: seq<string>): (r: seq<string>)
    ensures |r| == |ls|
  {
    if |ls| == 0 then []
    else [if IsBookStart(ls[0]) then Retitle(ls[0]) else ls[0]] + Normalized(ls[1..])
  }

  lemma {:induction false} NormalizedAppend(a: seq<string>, b: seq<string>)
    ensures Normalized(a + b) == Normalized(a) + Normalized(b)
  {
    if |a| > 0 {
      NormalizedAppend(a[1..], b);
      assert (a + b)[1..] == a[1..] + b;
    } else {
      assert a + b == b;
    }
  }

  lemma {:induction false} NormalizedPlain(ls: seq<string>)
    requires forall i {:trigger IsBookStart(ls[i])} :: 0 <= i < |ls| ==> !IsBookStart(ls[i])
    ensures Normalized(ls) == ls
  {
    if |ls| > 0 {
      NormalizedPlain(ls[1..]);
    }
  }

  function Flatten(bs: seq<seq<string>>): seq<string> {
    if |bs| == 0 then [] else bs[0] + Flatten(bs[1..])
  }

  /** The blocks, laid end to end, are exactly the lines from the first
      delimiter on, each delimiter line rewritten to `title:...`: no line of
      a book is lost or repeated. */
  lemma {:induction false} BlocksPartition(ls: seq<string>)
    ensures Flatten(Blocks(ls)) == Normalized(ls[BodyLength(ls)..])
    decreases |ls|
  {
    if |ls| > 0 {
      if !IsBookStart(ls[0]) {
        BlocksPartition(ls[1..]);
        assert ls[1..][BodyLength(ls[1..])..] == ls[BodyLength(ls)..];
      } else {
        var n := BodyLength(ls[1..]);
        BlocksPartition(ls[1 + n..]);
        NoPrelude(ls[1 + n..]);
        FirstBlockPartition(ls, n);
        NoPrelude(ls);
      }
    }
  }

  /** The step of BlocksPartition for a list that opens with a delimiter. */
  lemma {:induction false} FirstBlockPartition(ls: seq<string>, n: nat)
    requires |ls| > 0 && IsBookStart(ls[0]) && n == BodyLength(ls[1..])
    requires Flatten(Blocks(ls[1 + n..])) == Normalized(ls[1 + n..])
    ensures Flatten(Blocks(ls)) == Normalized(ls)
  {
    var body := ls[1..1 + n];
    var rest := ls[1 + n..];
    BlocksFirst(ls, n);
    NormalizedFirst(ls);
    assert ls[1..] == body + rest;
    NormalizedPlain(body);
    JoinFirstBlock(Retitle(ls[0]), body, rest, Blocks(rest));
  }

  /** Sequence bookkeeping for FirstBlockPartition. */
  lemma {:induction false} JoinFirstBlock(head: string, body: seq<string>, rest: seq<string>, bs: seq<seq<string>>)
    requires Flatten(bs) == Normalized(rest) && Normalized(body) == body
    ensures Flatten([[head] + body] + bs) == [head] + Normalized(body + rest)
  {
    NormalizedAppend(body, rest);
    FlattenCons([head] + body, bs);
  }

  lemma {:induction false} FlattenCons(x: seq<string>, bs: seq<seq<string>>)
    ensures Flatten([x] + bs) == x + Flatten(bs)
  {
    assert ([x] + bs)[1..] == bs;
  }

  /** A list that opens with a delimiter, or is empty, has no prelude. */
  lemma {:induction false} NoPrelude(ls: seq<string>)
    requires |ls| > 0 ==> IsBookStart(ls[0])
    ensures BodyLength(ls) == 0 && ls[BodyLength(ls)..] == ls
  {
  }

  /** Blocks unfolded once on a list that opens with a delimiter. */
  lemma {:induction false} BlocksFirst(ls: seq<string>, n: nat)
    requires |ls| > 0 && IsBookStart(ls[0]) && n == BodyLength(ls[1..])
    ensures Blocks(ls) == [[Retitle(ls[0])] + ls[1..1 + n]] + Blocks(ls[1 + n..])
  {
    assert !(|ls| == 0 || !IsBookStart(ls[0]));
  }

  /** Normalized unfolded once on a list that opens with a delimiter. */
  lemma {:induction false} NormalizedFirst(ls: seq<string>)
    requires |ls| > 0 && IsBookStart(ls[0])
    ensures Normalized(ls) == [Retitle(ls[0])] + Normalized(ls[1..])
  {
  }

  /** Whitespace only. */
  predicate Blanks(s: string) {
    forall k :: 0 <= k < |s| ==> IsSpace(s[k])
  }

  /** `line` ends a `\n\s*-\s+title:` delimiter that stays on one line: blanks,
      a dash, at least one blank, `title:`, then the rest of the line. */
  predicate Delimiter(line: string, indent: string, gap: string, rest: string) {
    Blanks(indent) && |gap| >= 1 && Blanks(gap) && line == indent + "-" + gap + TitleKey() + rest
  }

  /** `-` and the `t` that opens `title:` are not whitespace. */
  lemma DashIsNotSpace()
    ensures !IsSpace('-') && |TitleKey()| == 6 && !IsSpace(TitleKey()[0])
  {
  }

  /** On a delimiter line the value of the first field starts right after
      `title:`. */
  lemma {:induction false} DelimiterLine(line: string, indent: string, gap: string, rest: string)
    requires Delimiter(line, indent, gap, rest)
    ensures TitleAt(line) == Some(|indent| + 1 + |gap| + |TitleKey()|)
  {
    DelimiterIndexes(line, indent, gap, TitleKey() + rest);
    SliceOfTail(line, |indent| + 1 + |gap|, TitleKey(), rest);
    DelimiterAt(line, |indent|, |gap|);
  }

  /** TitleAt on a line with blanks up to a dash at `b`, `g >= 1` blanks after
      it, then `title:`. */
  lemma {:induction false} DelimiterAt(line: string, b: nat, g: nat)
    requires g >= 1 && b + 1 + g + |TitleKey()| <= |line|
    requires Blanks(line[..b]) && line[b] == '-' && Blanks(line[b + 1..b + 1 + g])
    requires line[b + 1 + g..b + 1 + g + |TitleKey()|] == TitleKey()
    ensures TitleAt(line) == Some(b + 1 + g + |TitleKey()|)
  {
    var c := b + 1 + g;
    DashIsNotSpace();
    assert line[c] == TitleKey()[0];
    forall k | 0 <= k < b
      ensures IsSpace(line[k])
    {
      assert line[k] == line[..b][k];
    }
    forall k | b + 1 <= k < c
      ensures IsSpace(line[k])
    {
      assert line[k] == line[b + 1..c][k - b - 1];
    }
    SkipBlanks(line, 0, b);
    SkipBlanks(line, b + 1, g);
    TitleAtParts(line, b, c);
  }

  /** Where the pieces of `indent + "-" + gap + tail` are. */
  lemma {:induction false} DelimiterIndexes(line: string, indent: string, gap: string, tail: string)
    requires line == indent + "-" + gap + tail
    ensures |line| == |indent| + 1 + |gap| + |tail|
    ensures line[..|indent|] == indent && line[|indent|] == '-'
    ensures line[|indent| + 1..|indent| + 1 + |gap|] == gap
    ensures line[|indent| + 1 + |gap|..] == tail
  {
  }

  /** `tail = key + rest` from index `c` holds `key` at `c`. */
  lemma {:induction false} SliceOfTail(line: string, c: nat, key: string, rest: string)
    requires c <= |line| && line[c..] == key + rest
    ensures c + |key| <= |line| && line[c..c + |key|] == key
  {
    assert line[c..c + |key|] == line[c..][..|key|];
  }

  /** TitleAt from its pieces: blanks up to a dash at `b`, a blank after it,
      blanks up to `c`, and `title:` at `c`. */
  lemma {:induction false} TitleAtParts(line: string, b: nat, c: nat)
    requires b + 1 < |line| && SkipSpaces(line, 0) == b && line[b] == '-' && IsSpace(line[b + 1])
    requires SkipSpaces(line, b + 1) == c && c + |TitleKey()| <= |line| && line[c..c + |TitleKey()|] == TitleKey()
    ensures TitleAt(line) == Some(c + |TitleKey()|)
  {
  }

  /** A line starts a book exactly when it is a delimiter line. */
  lemma {:induction false} IsDelimiter(line: string)
    ensures IsBookStart(line) <==> exists indent, gap, rest :: Delimiter(line, indent, gap, rest)
  {
    if exists indent, gap, rest :: Delimiter(line, indent, gap, rest) {
      var indent, gap, rest :| Delimiter(line, indent, gap, rest);
      DelimiterLine(line, indent, gap, rest);
    }
    if IsBookStart(line) {
      DelimiterShape(line);
    }
  }

  /** A line that starts a book is cut, around its dash and its `title:`, into
      the parts of a delimiter. */
  lemma {:induction false} DelimiterShape(line: string)
    requires IsBookStart(line)
    ensures exists indent, gap, rest :: Delimiter(line, indent, gap, rest)
  {
    var b := SkipSpaces(line, 0);
    var c := SkipSpaces(line, b + 1);
    assert TitleAt(line) == Some(c + |TitleKey()|);
    assert line[b..b + 1] == "-";
    SkippedSpaces(line, 0);
    SkippedSpaces(line, b + 1);
    DelimiterParts(line, b, c);
  }

  /** The pieces of a line around a dash at `b` and `title:` at `c`, with
      blanks before the dash and between the two, form a delimiter. */
  lemma {:induction false} DelimiterParts(line: string, b: nat, c: nat)
    requires b + 1 < c && c + |TitleKey()| <= |line|
    requires line[b..b + 1] == "-" && line[c..c + |TitleKey()|] == TitleKey()
    requires forall k :: 0 <= k < b ==> IsSpace(line[k])
    requires forall k :: b + 1 <= k < c ==> IsSpace(line[k])
    ensures Delimiter(line, line[..b], line[b + 1..c], line[c + |TitleKey()|..])
  {
    var gap := line[b + 1..c];
    assert Blanks(gap) by {
      forall k | 0 <= k < |gap| ensures IsSpace(gap[k]) {
        assert gap[k] == line[b + 1 + k];
      }
    }
    Rejoin(line, b, c, "-", TitleKey());
  }

  /** A text holding `m1` at `b` and `m2` at `c` is the concatenation of the
      pieces around them. */
  lemma Rejoin(line: string, b: nat, c: nat, m1: string, m2: string)
    requires b + |m1| <= c && c + |m2| <= |line|
    requires line[b..b + |m1|] == m1 && line[c..c + |m2|] == m2
    ensures line == line[..b] + m1 + line[b + |m1|..c] + m2 + line[c + |m2|..]
  {
    assert line == line[..b] + line[b..b + |m1|] + line[b + |m1|..c] + line[c..c + |m2|] + line[c + |m2|..];
  }

  /** Every block opens with its `title:` line. */
  lemma {:induction false} BlocksOpenWithTitle(ls: seq<string>, k: nat)
    requires k < |Blocks(ls)|
    ensures StartsWith(Blocks(ls)[k][0], TitleKey())
    decreases |ls|
  {
    assert |ls| > 0;
    if !IsBookStart(ls[0]) {
      BlocksOpenWithTitle(ls[1..], k);
    } else {
      var n := BodyLength(ls[1..]);
      BlocksFirst(ls, n);
      if k > 0 {
        BlocksOpenWithTitle(ls[1 + n..], k - 1);
      } else {
        var r := Retitle(ls[0]);
        assert r[..|TitleKey()|] == TitleKey();
      }
    }
  }

  /** Only the first line of a block came from a delimiter: a block never
      holds the start of the next book. */
  lemma {:induction false} OneBookPerBlock(ls: seq<string>, k: nat, j: nat)
    requires k < |Blocks(ls)| && 1 <= j < |Blocks(ls)[k]|
    ensures !IsBookStart(Blocks(ls)[k][j])
    decreases |ls|
  {
    if !IsBookStart(ls[0]) {
      OneBookPerBlock(ls[1..], k, j);
    } else if k > 0 {
      var n := BodyLength(ls[1..]);
      OneBookPerBlock(ls[1 + n..], k - 1, j);
    }
  }

  /** The number of books is the number of `- title:` lines after the first line. */
  lemma BookCount(content: string)
    ensures |ReadingOf(content).books| == CountStarts(Lines(content)[1..])
  {
    BlockCount(Lines(content)[1..]);
  }

  /** A value read from newline-free lines holds no newline. */
  lemma FieldOneLine(block: seq<string>, key: string)
    requires NoBreaks(block)
    ensures '\n' !in FieldValue(block, key)
  {
    var q := FirstHit(block, QuotedFieldRegex(key));
    var u := FirstHit(block, UnquotedFieldRegex(key));
    if q.Some? {
      var line := block[q.value];
      var c := QuotedField(key, line).value;
      assert forall x :: x in c ==> x in line;
    } else if u.Some? {
      var line := block[u.value];
      var c := UnquotedField(key, line).value;
      assert forall x :: x in c ==> x in line;
    }
  }

  /** `summary: "v"` at the start of a line is read back as `v` when no
      earlier line starts with `summary:`. */
  lemma {:induction false} QuotedSummaryRoundTrip(lines: seq<string>, i: nat, gap: string, v: string)
    requires i < |lines|
    requires lines[i] == SummaryKey + gap + "\"" + v + "\""
    requires forall k :: 0 <= k < |gap| ==> IsSpace(gap[k])
    requires v != [] && IsTrimmed(v)
    requires forall j :: 0 <= j < i ==> !StartsWith(lines[j], SummaryKey)
    ensures Summary(lines) == v
  {
    var line := lines[i];
    assert StartsWith(line, SummaryKey);
    QuoteIsNotSpace();
    SkipBlanks(line, |SummaryKey|, |gap|);
    assert line[|SummaryKey| + |gap| + 1..|line| - 1] == v;
    assert QuotedSummary(line) == Some(v);
    assert FirstHit(lines, QuotedSummary) == Some(i);
  }

  /** Without a line starting with `summary:` (indented ones do not count),
      the summary is "". */
  lemma SummaryMissing(lines: seq<string>)
    requires forall j :: 0 <= j < |lines| ==> !StartsWith(lines[j], SummaryKey)
    ensures Summary(lines) == ""
  {
    assert FirstHit(lines, QuotedSummary).None?;
  }

  /** The quoted form is looked for in the whole text before the unquoted
      one: a quoted summary line wins even over an unquoted `summary:` line
      above it. */
  lemma QuotedSummaryWins(lines: seq<string>, i: nat)
    requires i < |lines| && QuotedSummary(lines[i]).Some?
    requires forall j :: 0 <= j < i ==> QuotedSummary(lines[j]).None?
    ensures Summary(lines) == Trim(QuotedSummary(lines[i]).value)
  {
    assert FirstHit(lines, QuotedSummary) == Some(i);
  }

  /** Every value the parser produces is stripped and fits on one line. */
  lemma ValuesAreClean(content: string, k: nat)
    requires k < |ReadingOf(content).books|
    ensures var b := ReadingOf(content).books[k];
      IsTrimmed(b.title) && '\n' !in b.title && '\n' !in b.author && '\n' !in b.image
      && '\n' !in b.buyUrl && '\n' !in b.buyLabel && '\n' !in b.description
  {
    var ls := Lines(content);
    var bs := Blocks(ls[1..]);
    BlocksOneLine(ls[1..]);
    BooksOfAt(bs, k);
    var block := bs[k];
    FieldOneLine(block, FieldNames[0]);
    FieldOneLine(block, FieldNames[1]);
    FieldOneLine(block, FieldNames[2]);
    FieldOneLine(block, FieldNames[3]);
    FieldOneLine(block, FieldNames[4]);
    FieldOneLine(block, FieldNames[5]);
  }

  lemma {:induction false} BooksOfAt(blocks: seq<seq<string>>, k: nat)
    requires k < |blocks|
    ensures BooksOf(blocks)[k] == BookOf(blocks[k])
    decreases |blocks|
  {
    if k < |blocks| - 1 {
      BooksOfAt(blocks[..|blocks| - 1], k);
    }
  }

  /** No line of `ls` holds a line break. */
  predicate NoBreaks(ls: seq<string>) {
    forall i :: 0 <= i < |ls| ==> '\n' !in ls[i]
  }

  /** A delimiter line with `title:` put back holds no line break it did not have. */
  lemma RetitleOneLine(line: string)
    requires IsBookStart(line) && '\n' !in line
    ensures '\n' !in Retitle(line)
  {
    var t := TitleAt(line).value;
    assert forall x :: x in line[t..] ==> x in line;
  }

  /** Blocks cut from newline-free lines hold newline-free lines. */
  lemma {:induction false} BlocksOneLine(ls: seq<string>)
    requires NoBreaks(ls)
    ensures forall k :: 0 <= k < |Blocks(ls)| ==> NoBreaks(Blocks(ls)[k])
    decreases |ls|
  {
    if |ls| > 0 {
      if !IsBookStart(ls[0]) {
        NoBreaksSlice(ls, 1, |ls|);
        BlocksOneLine(ls[1..]);
      } else {
        var n := BodyLength(ls[1..]);
        NoBreaksSlice(ls, 1 + n, |ls|);
        BlocksOneLine(ls[1 + n..]);
        FirstBlockOneLine(ls, n, ls[1 + n..]);
      }
    }
  }

  /** The step of BlocksOneLine for a list that opens with a delimiter. */
  lemma {:induction false} FirstBlockOneLine(ls: seq<string>, n: nat, rest: seq<string>)
    requires |ls| > 0 && IsBookStart(ls[0]) && n == BodyLength(ls[1..]) && NoBreaks(ls)
    requires rest == ls[1 + n..]
    requires forall k :: 0 <= k < |Blocks(rest)| ==> NoBreaks(Blocks(rest)[k])
    ensures forall k :: 0 <= k < |Blocks(ls)| ==> NoBreaks(Blocks(ls)[k])
  {
    BlocksFirst(ls, n);
    RetitleOneLine(ls[0]);
    NoBreaksSlice(ls, 1, 1 + n);
    NoBreaksCons(Retitle(ls[0]), ls[1..1 + n], Blocks(rest), Blocks(ls));
  }

  /** Every slice of a newline-free list of lines is newline-free. */
  lemma NoBreaksSlice(ls: seq<string>, i: nat, j: nat)
    requires i <= j <= |ls| && NoBreaks(ls)
    ensures NoBreaks(ls[i..j])
  {
    forall t | 0 <= t < j - i
      ensures '\n' !in ls[i..j][t]
    {
      assert ls[i..j][t] == ls[i + t];
    }
  }

  /** A newline-free block put in front of newline-free blocks. */
  lemma NoBreaksCons(head: string, body: seq<string>, bs: seq<seq<string>>, all: seq<seq<string>>)
    requires '\n' !in head && NoBreaks(body)
    requires forall k :: 0 <= k < |bs| ==> NoBreaks(bs[k])
    requires all == [[head] + body] + bs
    ensures forall k :: 0 <= k < |all| ==> NoBreaks(all[k])
  {
    forall k | 0 <= k < |all|
      ensures NoBreaks(all[k])
    {
      if k == 0 {
        forall t | 0 <= t < |all[0]|
          ensures '\n' !in all[0][t]
        {
          if t > 0 {
            assert all[0][t] == body[t - 1];
          }
        }
      } else {
        assert all[k] == bs[k - 1];
      }
    }
  }
}
