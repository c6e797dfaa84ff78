# Reading Now card updater, modelled in Dafny

`scripts/update-reading.py` keeps the "Reading Now" card of a personal home
page up to date. It does four things:
- It reads `reading.yaml` with a handful of regular expressions. The result is a summary and a list of books, each with six text fields.
- It resolves each cover image to a web address or a file under `/assets/img/`.
- It renders the card as HTML. The card has:
  - one cover, or the first two side by side;
  - one `<li>` per book;
  - one button per book linking to where the book can be bought.
- It replaces every `<!-- Reading Now -->…<!-- Latest Creative Work -->` section of `index.html` with the new card, after saving the old page to a backup.

This project models those four steps and proves what they promise. It has four modules:

- `Text` (text.dfy): the string operations the script relies on.
  - Python's `str.isspace` and `str.strip`.
  - `split` and `join`.
  - Searching for a pattern (`Find`, the first occurrence at or after an index).
  - Generic facts about where a piece occurs in a concatenation.
- `Config` (config.dfy): `parse_yaml`.
  - Each regular expression is modelled as a function on one line.
  - `re.search` is the first line on which that function matches.
  - `re.split` on `\n\s*-\s+title:` becomes a cut of the list of lines at every delimiter line.
  - The parse itself is the method `ParseYaml`. It keeps the source's loop over blocks (`ParseBlocks`) and its loop over the six field names (`ParseBook`). It is proved equal to the function `ReadingOf`, which the lemmas are about.
- `Render` (render.dfy): `get_image_src` and `generate_html`.
  - Each f-string is modelled as its values placed between runs of fixed markup.
  - The fixed markup is gathered in the datatype `Layout`. `Site()` holds the script's exact text.
  - The methods `BuildDetails` and `BuildActions` are the two loops of `generate_html`. `GenerateHtml` builds the card in the site's layout.
  - Every property of the card is proved for every layout, so in particular for the site's.
- `Patch` (patch.dfy): `update_html`.
  - `re.sub` with the non-greedy DOTALL pattern is `Substitute`: a recursion over the regions it replaces, each found by `FirstRegion`.
  - The page and its `.bak` copy are the fields of the class `Homepage`. Its method `UpdateHtml` saves the backup and then patches the page, in the order the script does.

Three things the code does shape the model:
- **No books.** `generate_html` reads `books[0]` whatever the number of books, so an empty reading list raises `IndexError`. The model therefore requires at least one book.
- **Three or more books.** Only the first two get covers, but every book gets its `<li>` and its button.
- **Several sections.** `re.sub` is called without a count, so every `<!-- Reading Now -->…<!-- Latest Creative Work -->` region is replaced, not only the first.

## Model

| member | source | states |
|---|---|---|
| Text.Trim | scripts/update-reading.py:38 | `strip()`: the result has no leading or trailing whitespace, sits in the input with only whitespace before and after it, and a value already stripped is left as it is |
| Text.Find | scripts/update-reading.py:161-162 | the search for a marker: a found index holds the pattern and no earlier index from the start point does; "not found" means no index does |
| Text.JoinSplit | scripts/update-reading.py:33 | cutting the text into lines loses nothing: joining the lines with line breaks gives the text back |
| Config.Lines | scripts/update-reading.py:33 | `^`/`$` in multi-line mode and `.` work line by line: there is at least one line and no line holds a line break |
| Config.FirstHit | scripts/update-reading.py:33-36 | `re.search` over lines: the index found is the first line the pattern matches; "no match" means no line matches |
| Config.Extract | scripts/update-reading.py:37-38 | every value read is stripped |
| Config.ParseYaml | scripts/update-reading.py:25-63 | the parse gives exactly `ReadingOf(content)`: the summary, then one book per block in block order |
| Config.ParseBlocks | scripts/update-reading.py:42-60 | the loop over the blocks appends, in turn, the book read from each block |
| Config.ParseBook | scripts/update-reading.py:43-61 | the loop over the six field names fills each field with its quoted-else-unquoted value, or "" |
| Config.BooksOf | scripts/update-reading.py:42-61 | one book per block |
| Config.BooksOfAt | scripts/update-reading.py:42-61 | book k is read from block k: books keep document order |
| Config.Blocks | scripts/update-reading.py:41-45 | every block holds at least one line |
| Config.BlocksOpenWithTitle | scripts/update-reading.py:41-45 | every block opens with `title:`, put back in front of what the split left |
| Config.DelimiterLine | scripts/update-reading.py:41 | on a line of blanks, a dash, at least one blank, `title:` and a rest, the delimiter ends right after `title:` |
| Config.IsDelimiter | scripts/update-reading.py:41 | a line starts a book exactly when it is blanks, a dash, at least one blank, then `title:` |
| Config.BlockCount | scripts/update-reading.py:41 | there is one block per delimiter line |
| Config.BookCount | scripts/update-reading.py:41-61 | the number of books is the number of `- title:` delimiter lines after the first line |
| Config.PreludeDropped | scripts/update-reading.py:41 | text before the first delimiter gives no book |
| Config.BlocksPartition | scripts/update-reading.py:41-45 | the blocks laid end to end are exactly the lines from the first delimiter on, with `title:` put back: no line is lost or repeated |
| Config.OneBookPerBlock | scripts/update-reading.py:41 | no block holds the start of another book |
| Config.QuotedFieldRoundTrip | scripts/update-reading.py:50-51 | a line `key: "v"` is read back as `v`, whatever quotes or apostrophes `v` holds |
| Config.UnquotedFieldRoundTrip | scripts/update-reading.py:49-57 | a line `key: v` with `v` not starting with a quote is read back as `v` when no line has a quoted value for the key and no earlier line has the key: the first unquoted line wins |
| Config.QuotedWins | scripts/update-reading.py:49-55 | the first line where the quoted pattern matches gives the value, even if an unquoted line with the key comes before it |
| Config.FieldMissing | scripts/update-reading.py:58-59 | a key on no line of the block gives "", not an error |
| Config.EmptyQuotesAreKept | scripts/update-reading.py:50-55 | `key: ""` is not read as empty: `(.+)` needs a character, so the unquoted pattern yields the two quote characters |
| Config.FieldOneLine | scripts/update-reading.py:54-57 | a field value never runs past the end of its line |
| Config.QuotedSummaryRoundTrip | scripts/update-reading.py:33-38 | a line `summary: "v"` ending with its quote is read back as `v` |
| Config.QuotedSummaryWins | scripts/update-reading.py:33-36 | the quoted summary form wins over an unquoted `summary:` line, even one above it |
| Config.SummaryMissing | scripts/update-reading.py:30-38 | with no `summary:` line the summary is "" |
| Config.ValuesAreClean | scripts/update-reading.py:38-57 | every parsed title is stripped and no parsed field holds a line break |
| Render.ImageSrc | scripts/update-reading.py:66-70 | the source is the value itself exactly when it starts with `http://` or `https://`; otherwise it is `/assets/img/` followed by the value |
| Render.LocalStaysLocal | scripts/update-reading.py:68-70 | a local file name never turns into a web address |
| Render.FullWidthImage | scripts/update-reading.py:80-83 | the one cover carries the book's title as `alt`, followed by its resolved image as `src` |
| Render.SideBySideImages | scripts/update-reading.py:84-92 | the first book's `<img>` comes first (left), the second book's after it; each carries its own title as `alt`, followed by its own resolved image as `src` |
| Render.CoversShown | scripts/update-reading.py:80-92 | the first book's cover and, if there is one, the second's are on the card with their titles |
| Render.CoversOfFirstTwo | scripts/update-reading.py:84-92 | books after the second do not change the image part |
| Render.DetailItem | scripts/update-reading.py:96-102 | an item is `<li>Title: Description</li>` for a book without an author, and `<li>Title (Author): Description</li>` otherwise |
| Render.DetailNamesAuthor | scripts/update-reading.py:97-102 | the author follows the title in parentheses exactly when the book has a non-empty author |
| Render.DetailItems | scripts/update-reading.py:95-102 | one item per book, in the order of the books |
| Render.DetailLines | scripts/update-reading.py:103 | with one-line fields, the details list has exactly one line per book: the first item as is, each later one after the list's indentation |
| Render.ParsedDetailLines | scripts/update-reading.py:103 | the same holds for every reading list the parser produces |
| Render.EveryBookListed | scripts/update-reading.py:95-103 | every book's item is in the details list |
| Render.ActionItem | scripts/update-reading.py:108-114 | a button links to the book's `buy_url`, and names the title and `buy_label` both as its label and as its tooltip |
| Render.ActionItems | scripts/update-reading.py:106-115 | one button per book, in the order of the books |
| Render.EveryBookLinked | scripts/update-reading.py:106-116 | every book's `buy_url` is linked among the action buttons |
| Render.CardBody | scripts/update-reading.py:119-147 | the card holds the image part, the summary, the details list and the action buttons, in that order, each right after its run of fixed markup |
| Render.CardFramed | scripts/update-reading.py:119-147 | the card begins with `<!-- Reading Now -->` and ends with `<!-- Latest Creative Work -->` |
| Render.CardShowsEveryBook | scripts/update-reading.py:119-147 | the card shows the summary and, for every book, its `<li>` and a link to its `buy_url` |
| Render.GenerateHtml | scripts/update-reading.py:73-147 | for at least one book, the card built is the card of the site's layout |
| Render.BuildCard | scripts/update-reading.py:73-147 | the image part, the two loops and the template give the card for the reading list |
| Render.BuildDetails | scripts/update-reading.py:95-103 | the loop over the books gives the joined details list |
| Render.BuildActions | scripts/update-reading.py:106-116 | the loop over the books gives the joined action buttons |
| Patch.FirstRegion | scripts/update-reading.py:161-162 | the first match of the non-greedy pattern opens at the first start marker and closes with the first end marker after it. With no match, no start marker is followed by an end marker |
| Patch.Substitute | scripts/update-reading.py:162 | a page with no start marker followed by an end marker is left unchanged |
| Patch.OneRegion | scripts/update-reading.py:162 | with one section, the text before the start marker and after the end marker is kept and the card is put in between |
| Patch.PatchKeepsPrefix | scripts/update-reading.py:162 | the text before the first section is kept and the card follows it |
| Patch.RegionAfterPatch | scripts/update-reading.py:161-162 | after the patch, the first section of the page is exactly the card |
| Patch.PatchIdempotent | scripts/update-reading.py:161-162 | patching again with the same card changes nothing |
| Patch.ReplaceTwice | scripts/update-reading.py:161-162 | running update_html twice with the same card gives the page the first run gave |
| Patch.Homepage.UpdateHtml | scripts/update-reading.py:150-165 | the backup holds the page as it was before the update, and the page is the patched one |

## Left out

- Reading `reading.yaml` and `index.html` and writing both files are left out. So are the paths built from `__file__` and `main`, with its messages and exit code. The texts are parameters and class fields instead.
- Config.FieldValue: `\s*` after a key is taken within the key's line. In Python it can cross a line break, so `title:` with the value on the next line is read differently.
- Config.FieldValue: a key is recognised only as the first text of a line. Python's pattern also matches inside a longer key (`subtitle:`) or inside a value.
- Config.Summary: the `\s*` after `summary:` is taken within the line as well. In Python it can cross a line break, so `summary:` with the quoted value on the next line gives that value, where the model gives "".
- Config.TitleAt: a delimiter is recognised only when the dash and `title:` are on the same line. Python's `\s+` after the dash can cross a line break, so a dash alone on its line followed by a `title:` line starts a book there, and the model counts one book fewer.
- Config.Blocks: blank lines just before a `- title:` line stay at the end of the previous block. Python's `\s*` swallows them into the delimiter. Field values are unaffected, since a blank line matches no field pattern.
- Text.IsSpace: whitespace is the set Python's `str.isspace` accepts, written out as code points. No Unicode normalisation is modelled.
- Patch.Substitute: the card is inserted literally. `re.sub` reads its replacement as a template, so the model assumes the card holds no backslash, as a card built from ordinary reading-list text does.
- Patch.PatchIdempotent: it requires the card to be `IsCard`, meaning the first end marker after its start marker is its own closing one. It is not proved that a generated card is one: that fails when a summary or book field itself contains `<!-- Latest Creative Work -->`, since no HTML escaping is done.
- Render.GenerateHtml: a reading list with no books is outside its domain, because the source fails with an `IndexError`.
- The parsed dictionary is the datatype `Book` with six fields. `book.get("author")` is true exactly when the author is non-empty, which is how `Byline` reads it.
- No HTML escaping is modelled, because the script does none.
