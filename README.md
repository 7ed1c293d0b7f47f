# The xml2rfc nroff writer, in Dafny

This project models the nroff back end of xml2rfc
(`trunk/cli/xml2rfc/writers/nroff.py`). The writer works in two phases over
an append-only line buffer:

- **Rendering.** Each block of the document (title, heading, paragraph, raw
  block, table of contents) appends lines to `buf`. Lines of text that begin
  with one of nroff's control characters (`.` or `'`) are escaped. Indent
  changes are written as `.in n` only when the indent actually changes.
  Centered blocks are announced with `.ce k`, and bullets are set with
  `.ti n`. Each text block records a *break hint* at the buffer offset where
  it starts: how many lines it needs and what class of block it is.
- **Pagination.** `post_rendering` copies `buf` to `output`. Before a hinted
  block it may insert `.bp` (a page break) by a fixed rule. It also inserts
  one whenever a 56th line would land on the current page.

The files:

- `wrappers.dfy`: the `Option` type.
- `text.dfy`: the Python string operations the writer uses. These are
  `lstrip`, `rstrip`, `strip() == ""`, prefix and suffix tests, and `str()`
  of an integer.
- `escape.dfy`: `nroff_escape_linestart`, the escape step of `write_line`
  and `write_text`, and `urlkeep`.
- `xref.dfy`: `_expand_xref`, as a pure function of the element and of the
  item its anchor resolves to.
- `pagination.dfy`: a pure specification of `post_rendering` and its
  properties. `PaginateFrom` gives the output as a sequence of entries. Each
  entry is either an inserted break or a copied buffer line, so the
  properties can speak of inserted breaks even when a buffer line is itself
  `.bp`. The properties proved are:
  - the output is the buffer with breaks inserted;
  - every page holds at most 55 lines;
  - a break is never followed directly by another break;
  - the break rule's arithmetic;
  - a raw block that fits on a page is printed on one page.
- `writer.dfy`: the class `NroffRfcWriter`. Its fields are `buf`,
  `currIndent`, `breakHints`, `output`, `editCounter` and `toc`. Each of
  the writer's methods is a method of the class, proved against functions
  that describe the lines it appends. `PostRendering` is the
  `post_rendering` loop, proved equal to the rendered pagination
  specification.

A block that adds no line still records a hint (nroff.py:143-145), so a
hint's offset can equal the buffer length; `Valid` (every hint lies within
the buffer, `Pagination.HintsWithin`) allows this.

## Model

| member | source | states |
|---|---|---|
| Text.LStrip | trunk/cli/xml2rfc/writers/nroff.py:111 | `lstrip()` never lengthens the string, and its result is empty or starts with a non-whitespace character |
| Text.RStrip | trunk/cli/xml2rfc/writers/nroff.py:184 | `rstrip()` never lengthens the string, and its result is empty or ends with a non-whitespace character |
| Text.IntToString | trunk/cli/xml2rfc/writers/nroff.py:64 | `str(n)` is never empty and starts with `-` exactly for a negative `n`; its digits denote the number (through `NatToString`) |
| Text.LStripSuffix | trunk/cli/xml2rfc/writers/nroff.py:109-111 | `lstrip()` keeps a suffix of the string and drops only whitespace, and what it keeps does not start with whitespace |
| Text.RStripPrefix | trunk/cli/xml2rfc/writers/nroff.py:184 | `rstrip()` keeps a prefix of the string and drops only trailing whitespace |
| Text.StripEmptyIffBlank | trunk/cli/xml2rfc/writers/nroff.py:112 | `s.strip()` is empty exactly when `s` is all whitespace, in both directions |
| Text.IntToStringInjective | trunk/cli/xml2rfc/writers/nroff.py:64 | `str(n)` is injective on integers, so `.in n` names its argument unambiguously |
| Escape.NroffEscapeLinestart | trunk/cli/xml2rfc/writers/nroff.py:21-27 | a line starting with `'` becomes `\` + line, one starting with `.` becomes `\&` + line; any other line gives no value (Python's `None`); every escaped line starts with a backslash, no longer starts with a control character, and ends with the original line |
| Escape.EscapeLine | trunk/cli/xml2rfc/writers/nroff.py:76-80 | the line `write_line` appends never starts with a control character, and it is the input unchanged exactly when the input does not start with one |
| Escape.EscapeLineKeepsLine | trunk/cli/xml2rfc/writers/nroff.py:76-80 | the escaped line ends with the original line and is at most two characters longer |
| Escape.EscapeLineIdempotent | trunk/cli/xml2rfc/writers/nroff.py:76-80 | escaping an already escaped line changes nothing |
| Escape.EscapeAll | trunk/cli/xml2rfc/writers/nroff.py:121-123 | the escaped block has as many lines as the wrapped block |
| Escape.EscapeAllAt | trunk/cli/xml2rfc/writers/nroff.py:121-123 | line `k` of the escaped block is the escape of wrapped line `k` |
| Escape.EscapeAllPointwise | trunk/cli/xml2rfc/writers/nroff.py:121-123 | a block whose lines are, one for one, the escapes of the wrapped lines is the escaped block |
| Escape.EscapeAllNoMeta | trunk/cli/xml2rfc/writers/nroff.py:121-123 | no line of an escaped block starts with a control character, and each ends with the line it escapes |
| Escape.UrlKeep | trunk/cli/xml2rfc/writers/nroff.py:224-225 | `urlkeep` never shortens its text, and gives the empty string only for the empty string |
| Escape.UrlKeepStartsWithMarker | trunk/cli/xml2rfc/writers/nroff.py:225 | a text that starts with `http://` comes out starting with `\%` |
| Escape.UrlKeepPlainPrefix | trunk/cli/xml2rfc/writers/nroff.py:225 | a backslash-free prefix of the output was copied unchanged from the input |
| Escape.UrlKeepMarksEveryUrl | trunk/cli/xml2rfc/writers/nroff.py:224-225 | every `http://` in the output of `urlkeep` is preceded by `\%` |
| Escape.NoMarkerWithoutUrl | trunk/cli/xml2rfc/writers/nroff.py:225 | a text that does not start with `http://` does not produce `\%http://` at its start |
| Escape.UrlKeepCopies | trunk/cli/xml2rfc/writers/nroff.py:225 | where no URL starts, `urlkeep` copies the character |
| Escape.UrlKeepOnlyInsertsMarkers | trunk/cli/xml2rfc/writers/nroff.py:224-225 | deleting each `\%` in front of `http://` from the output gives back the input exactly, so `urlkeep` only inserts markers |
| Xref.TargetText | trunk/cli/xml2rfc/writers/nroff.py:167-177 | `[target]` when the anchor resolves to nothing or the format is `none`; otherwise the item's counter, title or auto name, by format |
| Xref.ExpandXref | trunk/cli/xml2rfc/writers/nroff.py:165-188 | with link text: exactly the right-stripped text, a space, then the target text, parenthesised when it is not bracketed and otherwise prefixed by `\%` exactly when it holds `.` or `-`; without link text: the target text, prefixed by `\%` exactly when it holds `.` or `-` |
| Pagination.HintedBreak | trunk/cli/xml2rfc/writers/nroff.py:270-279 | a `break` hint always breaks; a `txt` block never breaks early with autobreaks off; a block that fits in the room left on the page is moved only by a `break` hint |
| Pagination.StepAt | trunk/cli/xml2rfc/writers/nroff.py:280-286 | one loop pass emits the line, after at most one break; the page then holds one line after a break, one more otherwise, and never more than 55 |
| Pagination.PaginateFrom | trunk/cli/xml2rfc/writers/nroff.py:265-286 | from line `i` on, the output has at least one entry and at most two per remaining line |
| Pagination.Paginate | trunk/cli/xml2rfc/writers/nroff.py:265-286 | the whole output, starting on an empty page, is at least as long as the buffer and at most twice as long |
| Pagination.StepShape | trunk/cli/xml2rfc/writers/nroff.py:280-286 | one loop pass appends the line after at most one break; the page then holds one line after a break, or one line more without |
| Pagination.StepCases | trunk/cli/xml2rfc/writers/nroff.py:268-286 | one loop pass emits `.bp` exactly when the hinted rule or the page limit fires, then the line; the page length becomes 1 or grows by 1; the step is one unfolding of the pagination |
| Pagination.CopyStep | trunk/cli/xml2rfc/writers/nroff.py:267-286 | one loop pass keeps the loop invariants: the emitted prefix plus the remaining pagination is the whole, and the output renders the emitted prefix |
| Pagination.StepQuiet | trunk/cli/xml2rfc/writers/nroff.py:282-286 | at an unhinted line with room on the page, the line is copied with no break |
| Pagination.Render | trunk/cli/xml2rfc/writers/nroff.py:280-285 | each entry becomes one output line: `.bp` for an inserted break, the buffer line for a copy |
| Pagination.RenderAppend | trunk/cli/xml2rfc/writers/nroff.py:280-285 | rendering distributes over concatenation |
| Pagination.LinesAppend | trunk/cli/xml2rfc/writers/nroff.py:280-285 | the copied lines and the break count of a concatenation are the sums of the parts |
| Pagination.LengthSplits | trunk/cli/xml2rfc/writers/nroff.py:280-285 | every output entry is either a copied line or an inserted break |
| Pagination.LinesFrom | trunk/cli/xml2rfc/writers/nroff.py:267-286 | from any position and page length, the copied lines are exactly the rest of the buffer |
| Pagination.PaginatePreservesBuffer | trunk/cli/xml2rfc/writers/nroff.py:267-286 | deleting the inserted breaks from the output gives back the buffer, each line once and in order, so the output is longer than the buffer by exactly the number of inserted breaks |
| Pagination.Pages | trunk/cli/xml2rfc/writers/nroff.py:280-285 | cutting the output at its inserted breaks gives at least one page |
| Pagination.PagesPartitionLines | trunk/cli/xml2rfc/writers/nroff.py:280-285 | the pages, joined, are the copied lines, and there is one page more than there are breaks |
| Pagination.PagesCopy | trunk/cli/xml2rfc/writers/nroff.py:285 | a copied line joins the current page |
| Pagination.PagesBreak | trunk/cli/xml2rfc/writers/nroff.py:280-284 | a break starts a new, empty page |
| Pagination.PagesFitCopy | trunk/cli/xml2rfc/writers/nroff.py:285-286 | a copied line in front of a well-filled tail keeps the pages within capacity |
| Pagination.PagesFitBreak | trunk/cli/xml2rfc/writers/nroff.py:280-286 | a break and a line in front of a well-filled tail close the page and keep every later page at 1 to 55 lines |
| Pagination.PagesFrom | trunk/cli/xml2rfc/writers/nroff.py:265-286 | from any position, the first page holds at most 55 minus the current page length, every later page 1 to 55 lines |
| Pagination.PageCapacity | trunk/cli/xml2rfc/writers/nroff.py:265-286 | no page of the output holds more than 55 buffer lines, and every page after the first holds at least one, so no inserted break is followed directly by another |
| Pagination.HintedBreakOnRawNumbers | trunk/cli/xml2rfc/writers/nroff.py:270-279 | the blank-line adjustment lowers `available` and `needed` alike, so it only matters for the `available < 2` test |
| Pagination.HintedBreakExamples | trunk/cli/xml2rfc/writers/nroff.py:268-281 | a 10-line text block breaks at page length 54 with autobreaks on; it does not break at 53 or at 50, and without autobreaks it does not break |
| Pagination.RawBlockHasRoom | trunk/cli/xml2rfc/writers/nroff.py:275-276 | after the decision at its first line, a raw block of at most 55 lines has room on its page |
| Pagination.Copies | trunk/cli/xml2rfc/writers/nroff.py:285 | a run of copies has one entry per line |
| Pagination.CopiesCons | trunk/cli/xml2rfc/writers/nroff.py:285 | a run of copies is its first copy followed by the rest |
| Pagination.QuietLine | trunk/cli/xml2rfc/writers/nroff.py:282-286 | an unhinted line on a page with room is copied, and the rest follows on the same page |
| Pagination.QuietRun | trunk/cli/xml2rfc/writers/nroff.py:282-286 | unhinted lines on a page with room for them are copied with no break, and the page length grows by their number |
| Pagination.RawBlockOnOnePage | trunk/cli/xml2rfc/writers/nroff.py:268-286 | when every hint lies within the buffer, a raw block of at most 55 lines with no hint inside it is printed on one page: at most one break before its first line, then the whole block with no break |
| Nroff.CommentHeader | trunk/cli/xml2rfc/writers/nroff.py:35 | the comment header starts with `.`, one of nroff's control characters |
| Nroff.CommentHeaderIsComment | trunk/cli/xml2rfc/writers/nroff.py:35 | the comment header starts with the nroff comment request `.\"` |
| Nroff.CommentLineAsWritten | trunk/cli/xml2rfc/writers/nroff.py:247-248 | the header as `write_line` emits it starts with `\&.\"`, so it is no longer a request |
| Nroff.IndentCommands | trunk/cli/xml2rfc/writers/nroff.py:61-65 | `_indent` writes at most one line; it writes nothing exactly when the indent is unchanged, and otherwise writes `.in n` |
| Nroff.IndentTwiceWritesOnce | trunk/cli/xml2rfc/writers/nroff.py:61-65 | two consecutive `_indent` calls with the same amount write at most one line |
| Nroff.IndentCommandsDistinct | trunk/cli/xml2rfc/writers/nroff.py:63-64 | different indents give different `.in` lines |
| Nroff.EditMark | trunk/cli/xml2rfc/writers/nroff.py:103 | an editing mark is `<`, at least one character, then `>`, so it never needs escaping |
| Nroff.WrapInput | trunk/cli/xml2rfc/writers/nroff.py:108-113 | the wrapper's input is no longer than bullet and text together, and is the text itself when there is no bullet and no stripping |
| Nroff.WrapInputShape | trunk/cli/xml2rfc/writers/nroff.py:108-113 | the wrapper sees the (left-stripped) text behind a non-blank bullet, or the text alone when the bullet is blank |
| Nroff.FullIndent | trunk/cli/xml2rfc/writers/nroff.py:125 | `sub_indent and indent + sub_indent or indent + len(bullet)`, for both truthiness cases |
| Nroff.Request | trunk/cli/xml2rfc/writers/nroff.py:112-119 | double spaces are collapsed exactly when the bullet is blank; sentence endings as asked |
| Nroff.Wrapped | trunk/cli/xml2rfc/writers/nroff.py:107-119 | the wrapped lines of a block are non-empty |
| Nroff.LeadLines | trunk/cli/xml2rfc/writers/nroff.py:99-105 | exactly one leading line when asked, none otherwise; the blank line unless an editing mark is due |
| Nroff.LayoutLines | trunk/cli/xml2rfc/writers/nroff.py:127-131 | no layout line for empty text; `.ce k` for centered text of `k` wrapped lines; at most one line |
| Nroff.BulletLines | trunk/cli/xml2rfc/writers/nroff.py:133-135 | a bullet adds at most one `.ti` line |
| Nroff.BulletLinesTest | trunk/cli/xml2rfc/writers/nroff.py:133 | the `.ti` line is written exactly when `bullet and len(bullet.strip()) > 0` |
| Nroff.ContentLines | trunk/cli/xml2rfc/writers/nroff.py:133-141 | the escaped wrapped lines, unless the text is empty and the bullet is not blank |
| Nroff.TextBlock | trunk/cli/xml2rfc/writers/nroff.py:125-141 | a block with no text and no bullet writes nothing; with no text but a bullet, it writes `.ti indent` and the bullet alone |
| Nroff.CenteredLines | trunk/cli/xml2rfc/writers/nroff.py:194-199 | an empty title line adds nothing |
| Nroff.CenteredBlock | trunk/cli/xml2rfc/writers/nroff.py:197-199 | a centered block without bullet is `.ce k` and its lines, whatever the current indent |
| Nroff.NroffRfcWriter.constructor | trunk/cli/xml2rfc/writers/nroff.py:48-51 | the recorded indent starts at 0; the buffer, hints, output and edit counter start empty or 0, as the parent constructor is taken to set them |
| Nroff.NroffRfcWriter.WriteNroff | trunk/cli/xml2rfc/writers/nroff.py:72-74 | appends the line unescaped |
| Nroff.NroffRfcWriter.WriteLine | trunk/cli/xml2rfc/writers/nroff.py:76-80 | appends the escaped line; the new last line does not start with a control character and ends with the given line |
| Nroff.NroffRfcWriter.LineBreak | trunk/cli/xml2rfc/writers/nroff.py:103-105 | `_lb` appends exactly one line holding its text |
| Nroff.NroffRfcWriter.VSpace | trunk/cli/xml2rfc/writers/nroff.py:68-70 | appends `.sp n` |
| Nroff.NroffRfcWriter.Indent | trunk/cli/xml2rfc/writers/nroff.py:61-65 | appends the `_indent` commands for the old indent and the requested one; the recorded indent becomes the amount |
| Nroff.NroffRfcWriter.EscapeLines | trunk/cli/xml2rfc/writers/nroff.py:121-123 | the in-place escape loop produces the escaped block |
| Nroff.NroffRfcWriter.LeadingBlankline | trunk/cli/xml2rfc/writers/nroff.py:99-105 | appends the leading line, and bumps the edit counter exactly when an editing mark is written |
| Nroff.NroffRfcWriter.WrapBlock | trunk/cli/xml2rfc/writers/nroff.py:108-123 | the block's lines are the escapes of what the wrapper returns for the block's request |
| Nroff.NroffRfcWriter.WriteBlockBody | trunk/cli/xml2rfc/writers/nroff.py:107-141 | appends the layout line, the bullet's `.ti`, and the content lines, in that order; the indent changes only for non-empty, non-centered text |
| Nroff.NroffRfcWriter.AddHint | trunk/cli/xml2rfc/writers/nroff.py:143-145 | records the hint from the block's start to the current end of the buffer, changing no other hint |
| Nroff.NroffRfcWriter.WriteText | trunk/cli/xml2rfc/writers/nroff.py:83-145 | the buffer grows by the leading line and the block; the lines already there are kept; the hint at the start offset covers the whole block as `txt`; the indent and the edit counter change as the source does |
| Nroff.NroffRfcWriter.PostWriteToc | trunk/cli/xml2rfc/writers/nroff.py:154-163 | the result is the caller's lines, the five-line preamble ending in `.nf`, the entries, then `.fi` |
| Nroff.NroffRfcWriter.WriteCentered | trunk/cli/xml2rfc/writers/nroff.py:197-199 | a centered `write_text` call appends `.ce k` and its lines, keeps indent and edit counter, and hints its block |
| Nroff.NroffRfcWriter.WriteTitle | trunk/cli/xml2rfc/writers/nroff.py:194-199 | a blank line, the centered title and, when given, the centered document name, each with its own hint |
| Nroff.NroffRfcWriter.WriteRaw | trunk/cli/xml2rfc/writers/nroff.py:201-211 | the indent commands, `.nf`, the rendered lines, `.fi`; the recorded indent becomes the given one |
| Nroff.NroffRfcWriter.WriteHeading | trunk/cli/xml2rfc/writers/nroff.py:213-222 | a blank line, `.in` of the bullet's width when the heading is too long (the recorded indent untouched), `.ti 0`, then the escaped heading |
| Nroff.NroffRfcWriter.WriteParagraph | trunk/cli/xml2rfc/writers/nroff.py:224-230 | a text block of the URL-marked text at indent 3 after a blank line, with its hint |
| Nroff.NroffRfcWriter.PreRendering | trunk/cli/xml2rfc/writers/nroff.py:240-260 | the comment request, a blank line, the eight settings in order, then the six string definitions |
| Nroff.NroffRfcWriter.BreakBefore | trunk/cli/xml2rfc/writers/nroff.py:268-281 | the hinted break test of the loop is exactly the break rule |
| Nroff.NroffRfcWriter.CopyLine | trunk/cli/xml2rfc/writers/nroff.py:267-286 | one loop pass appends `.bp` when the hinted rule or the page limit fires, then the line, and returns the new page length |
| Nroff.NroffRfcWriter.PostRendering | trunk/cli/xml2rfc/writers/nroff.py:262-286 | the output grows by the rendered pagination of the buffer |

## Left out

- Text wrapping: `self.wrapper.wrap` and its replacements belong to a parent
  class that is not part of this model. The wrapper is a table from wrap
  requests to the lines it returns. A block's request must be in the table
  and its lines must be non-empty, because the escape loop reads the first
  character of each line.
- `_lb`, the parent `write_raw` and the parent `pre_rendering` are not part
  of this model. `_lb` appends one line holding its text. The lines the parent
  `write_raw` renders are a parameter of `WriteRaw`, and the hints it records
  are not modelled. The header and footer strings are a parameter of
  `PreRendering`.
- Nroff.NroffRfcWriter.PreRendering: the version and the UTC time are
  parameters, because they come from the clock and the installed version.
  The call to the parent `pre_rendering` is left out.
- Nroff.NroffRfcWriter.WriteText: only calls that write into the writer's
  own buffer are modelled. `write_text` with a caller-supplied `buf` is not
  modelled, and neither are `wrap_urls` and `source_line`, which the code
  ignores.
- Nroff.NroffRfcWriter.PostWriteToc: Python extends the caller's list in
  place. The model returns the extended list as a new value, so the aliasing
  of that list is not captured.
- Nroff.NroffRfcWriter: `editing` and `autobreaks` are constant fields set
  at construction. The code reads `self.pis['editing']` on each `write_text`
  call and `self.pis['autobreaks']` at each hinted line, so a processing
  instruction that changes them during rendering is not modelled.
- Nroff.NroffRfcWriter.constructor: `__init__` sets only `curr_indent`
  (nroff.py:51). The empty buffer, hints and output and the zero edit
  counter come from the parent constructor, which is not part of this
  model; they are assumed here.
- `pre_indexing` rewrites the parsed XML tree. It is left out because the
  tree is not part of this model.
- `write_to_file` is file output and is left out.
- Text.IsSpace: only the ASCII whitespace characters count as whitespace.
  Python's `strip` also removes Unicode whitespace in unicode strings.
- Xref.ExpandXref: the anchor lookup `_getItemByAnchor` and the writer's
  default format are parameters. The element's absent text and its empty
  text are the same value.
- Pagination.RawBlockOnOnePage: stated only for raw blocks with no other
  hint inside them. A nested hint can break the page inside the block.
- The unused `compiler.pyassem` import and the string literal after
  `write_text` do nothing and are not modelled.

## Findings

| source | as written | input that shows it | evidently intended | confidence | as-written member | corrected member |
|---|---|---|---|---|---|---|
| trunk/cli/xml2rfc/writers/nroff.py:247-248 | the generator comment `.\" automatically generated by xml2rfc v… on …` goes through `write_line`, which escapes a line starting with `.`, so the line becomes `\&.\" …` | any version and time, e.g. version `2.0` and time `2012-01-01T00:00:00Z`: the first line becomes `\&.\" automatically generated by xml2rfc v2.0 on 2012-01-01T00:00:00Z`, which nroff reads as text `.` followed by a comment, not as a comment request | the header is an nroff comment and is written unescaped, through `write_nroff` | not executed; high that the line is escaped, medium that the stray `.` reaches the output | Nroff.CommentLineAsWritten | Nroff.NroffRfcWriter.PreRendering |
