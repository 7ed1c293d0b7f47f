/** The nroff back end's writer object: an append-only line buffer filled
    block by block during rendering (with the current indent and a break
    hint per block), then copied to the output with page breaks inserted. */
module Nroff {
  import opened Text
  import opened Escape
  import opened Pagination

  /** The nroff settings written once at the top of every document. */
  const SettingsHeader: seq<string> := [
    ".pl 10.0i",     // page length
    ".po 0",         // page offset
    ".ll 7.2i",      // line length
    ".lt 7.2i",      // title length
    ".nr LL 7.2i",   // printer line length
    ".nr LT 7.2i",   // printer title length
    ".hy 0",         // no hyphenation
    ".ad l"          // adjust the left margin only
  ]

  /** The lines that frame the table of contents: a caption, then a no-fill region. */
  const TocPreamble: seq<string> := [".ti 0", "Table of Contents", "", ".in 3", ".nf"]

  /** The nroff comment naming the generator version and the time of the run. */
  function CommentHeader(version: string, stamp: string): (h: string)
    ensures StartsWithMeta(h) && h[0] == '.'
  {
    CommentRequest + " automatically generated by xml2rfc v" + version + " on " + stamp
  }

  /** The nroff comment request: a `.` followed by `\"`. */
  const CommentRequest: string := ".\\\""

  /** The comment header is an nroff comment request: `.` then `\"`. */
  lemma CommentHeaderIsComment(version: string, stamp: string)
    ensures StartsWith(CommentHeader(version, stamp), CommentRequest)
    ensures CommentHeader(version, stamp)[0] == '.'
  {
    var rest := " automatically generated by xml2rfc v" + version + " on " + stamp;
    assert CommentHeader(version, stamp) == CommentRequest + rest;
  }

  /** The header line as `pre_rendering` actually emits it, through
      `write_line`: since it starts with `.`, it is escaped. */
  function CommentLineAsWritten(version: string, stamp: string): (line: string)
    ensures StartsWith(line, "\\&" + CommentRequest)
    ensures !StartsWithMeta(line)
  {
    var c := CommentHeader(version, stamp);
    CommentHeaderIsComment(version, stamp);
    assert EscapeLine(c) == "\\&" + c;
    assert (EscapeLine(c))[..5] == "\\&" + c[..3];
    EscapeLine(c)
  }

  /** The strings `pre_rendering` puts into the running header and footer. */
  datatype RunningText = RunningText(leftHeader: string, centerHeader: string, rightHeader: string,
                                     leftFooter: string, centerFooter: string)

  /** One call of the text wrapper: the string to wrap, whether double
      spaces are collapsed, and whether sentence endings are fixed. */
  datatype WrapRequest = WrapRequest(text: string, fixDoublespace: bool, fixSentenceEndings: bool)

  /** The text wrapper, given by the lines it returns for each request. */
  type Wrapper = map<WrapRequest, seq<string>>

  /** The lines `_indent` writes: `.in n` only when `n` differs from the current indent. */
  function IndentCommands(current: int, amount: int): (cmds: seq<string>)
    ensures |cmds| <= 1
    ensures cmds == [] <==> amount == current
    ensures cmds != [] ==> cmds[0] == ".in " + IntToString(amount)
  {
    if amount != current then [".in " + IntToString(amount)] else []
  }

  /** Two requests for the same indent in a row write at most one command. */
  lemma IndentTwiceWritesOnce(current: int, amount: int)
    ensures |IndentCommands(current, amount) + IndentCommands(amount, amount)| <= 1
  {
  }

  /** Different indents produce different `.in` commands. */
  lemma IndentCommandsDistinct(current: int, a: int, b: int)
    requires a != current && b != current
    requires IndentCommands(current, a) == IndentCommands(current, b)
    ensures a == b
  {
    assert (".in " + IntToString(a))[4..] == IntToString(a);
    assert (".in " + IntToString(b))[4..] == IntToString(b);
    IntToStringInjective(a, b);
  }

  /** The line of an editing mark: `<n>`. */
  function EditMark(n: int): (m: string)
    ensures |m| >= 3 && m[0] == '<' && m[|m| - 1] == '>'
    ensures !StartsWithMeta(m)
  {
    "<" + IntToString(n) + ">"
  }

  /** The text handed to the wrapper: left-stripped when asked, with a
      non-blank bullet in front. */
  function WrapInput(text: string, strip: bool, bullet: string): (s: string)
    ensures |s| <= |bullet| + |text|
    ensures Blank(bullet) && !strip ==> s == text
  {
    var body := if strip then LStrip(text) else text;
    if !Blank(bullet) then bullet + body else body
  }

  /** The wrapper sees the (stripped) text whole, after the bullet when
      there is one, and nothing else. */
  lemma WrapInputShape(text: string, strip: bool, bullet: string)
    ensures var s := WrapInput(text, strip, bullet);
      var body := if strip then LStrip(text) else text;
      && (!Blank(bullet) ==> StartsWith(s, bullet) && s[|bullet|..] == body)
      && (Blank(bullet) ==> s == body)
      && EndsWith(s, body)
  {
    var s := WrapInput(text, strip, bullet);
    var body := if strip then LStrip(text) else text;
    if !Blank(bullet) {
      assert s[..|bullet|] == bullet;
      assert s[|bullet|..] == body;
      assert s[|s| - |body|..] == body;
    } else {
      assert s[|s| - |body|..] == s[0..] == body;
    }
  }

  /** Python's `sub_indent and indent + sub_indent or indent + len(bullet)`:
      the hanging indent when it is non-zero and gives a non-zero sum, else
      the base indent widened by the bullet. */
  function FullIndent(indent: int, subIndent: int, bullet: string): (n: int)
    ensures subIndent != 0 && indent + subIndent != 0 ==> n == indent + subIndent
    ensures subIndent == 0 || indent + subIndent == 0 ==> n == indent + |bullet|
  {
    if subIndent != 0 && indent + subIndent != 0 then indent + subIndent else indent + |bullet|
  }

  /** The wrapper call `write_text` makes for a non-empty block: double
      spaces are collapsed only when there is no bullet. */
  function Request(text: string, strip: bool, bullet: string, fixSentenceEndings: bool): (q: WrapRequest)
    ensures q.fixDoublespace <==> Blank(bullet)
    ensures q.fixSentenceEndings == fixSentenceEndings
  {
    WrapRequest(WrapInput(text, strip, bullet), Blank(bullet), fixSentenceEndings)
  }

  /** The wrapper answers this block's request, and with no empty line (the
      escaping step looks at the first character of every line). */
  predicate Wrappable(text: string, strip: bool, bullet: string, fixSentenceEndings: bool, wrap: Wrapper) {
    var q := Request(text, strip, bullet, fixSentenceEndings);
    text != [] ==> q in wrap && NoEmptyLines(wrap[q])
  }

  /** The wrapped lines of a block (none when there is no text). */
  function Wrapped(text: string, strip: bool, bullet: string, fixSentenceEndings: bool, wrap: Wrapper): (par: seq<string>)
    requires Wrappable(text, strip, bullet, fixSentenceEndings, wrap)
    ensures NoEmptyLines(par)
  {
    if text == [] then [] else wrap[Request(text, strip, bullet, fixSentenceEndings)]
  }

  /** The lines before a text block: nothing, a blank line, or the next
      editing mark when editing marks are on. */
  function LeadLines(leadingBlankline: bool, mark: bool, counter: int): (lead: seq<string>)
    ensures |lead| == (if leadingBlankline then 1 else 0)
    ensures !leadingBlankline ==> lead == []
    ensures leadingBlankline && !mark ==> lead == [""]
  {
    if !leadingBlankline then [] else if mark then [EditMark(counter + 1)] else [""]
  }

  /** The layout request of a non-empty text block: `.ce k` for its k lines
      when centered, else the indent change to the block's full indent. */
  function LayoutLines(text: string, align: string, count: nat, current: int, full: int): (cmds: seq<string>)
    ensures text == [] ==> cmds == []
    ensures |cmds| <= 1
    ensures text != [] && align == "center" ==> cmds == [".ce " + IntToString(count)]
  {
    if text == [] then [] else if align == "center" then [".ce " + IntToString(count)] else IndentCommands(current, full)
  }

  /** A non-blank bullet is set with a temporary indent at the base indent. */
  function BulletLines(bullet: string, indent: int): (cmds: seq<string>)
    ensures |cmds| <= 1
  {
    if !Blank(bullet) then [".ti " + IntToString(indent)] else []
  }

  /** The bullet test is Python's `bullet and len(bullet.strip()) > 0`: a
      `.ti` is written exactly for a non-empty bullet that strips to
      something. */
  lemma BulletLinesTest(bullet: string, indent: int)
    ensures BulletLines(bullet, indent) != [] <==> bullet != [] && Strip(bullet) != []
  {
    StripEmptyIffBlank(bullet);
  }

  /** The body of a text block: the escaped wrapped lines, or the bare
      bullet when there is no text. */
  function ContentLines(text: string, bullet: string, par: seq<string>): (body: seq<string>)
    requires NoEmptyLines(par)
    ensures text != [] || Blank(bullet) ==> body == EscapeAll(par)
  {
    if text == [] && !Blank(bullet) then [bullet] else EscapeAll(par)
  }

  /** The lines of a text block after its leading line. */
  function TextBlock(text: string, indent: int, subIndent: int, bullet: string, align: string,
                     strip: bool, fixSentenceEndings: bool, wrap: Wrapper, current: int): (lines: seq<string>)
    requires Wrappable(text, strip, bullet, fixSentenceEndings, wrap)
    // no text and no bullet: nothing at all
    ensures text == [] && Blank(bullet) ==> lines == []
    // no text but a bullet: the bullet alone, set at the base indent
    ensures text == [] && !Blank(bullet) ==> lines == [".ti " + IntToString(indent), bullet]
  {
    var par := Wrapped(text, strip, bullet, fixSentenceEndings, wrap);
    LayoutLines(text, align, |par|, current, FullIndent(indent, subIndent, bullet))
      + BulletLines(bullet, indent) + ContentLines(text, bullet, par)
  }

  /** The lines a centered block without bullet adds: `.ce k`, then its k lines. */
  function CenteredLines(text: string, wrap: Wrapper): (lines: seq<string>)
    requires Wrappable(text, true, "", true, wrap)
    ensures text == [] ==> lines == []
  {
    var par := Wrapped(text, true, "", true, wrap);
    if text == [] then [] else [".ce " + IntToString(|par|)] + EscapeAll(par)
  }

  /** A centered block without bullet is `.ce k` and its lines, whatever the current indent. */
  lemma CenteredBlock(text: string, wrap: Wrapper, current: int)
    requires Wrappable(text, true, "", true, wrap)
    ensures TextBlock(text, 0, 0, "", "center", true, true, wrap, current) == CenteredLines(text, wrap)
  {
    assert !Blank("") ==> false;
    assert BulletLines("", 0) == [];
  }

  class NroffRfcWriter {
    /** The rendered lines, in order (`self.buf`). */
    var buf: seq<string>
    /** The indent of the last `.in` written by `_indent` (`self.curr_indent`). */
    var currIndent: int
    /** Break hints keyed by the buffer offset where a block starts. */
    var breakHints: map<int, Hint>
    /** The paginated lines (`self.output`). */
    var output: seq<string>
    /** The number of the last editing mark (`self.edit_counter`). */
    var editCounter: int
    /** The entries of the table of contents (`self.toc`). */
    var toc: seq<string>
    /** The page width in characters. */
    const width: int
    /** The `editing` processing instruction is `yes`. */
    const editing: bool
    /** The `autobreaks` processing instruction is `yes`. */
    const autobreaks: bool

    /** Every hint lies within the buffer, as `RawBlockOnOnePage` needs. */
    ghost predicate Valid()
      reads this
    {
      HintsWithin(buf, breakHints)
    }

    constructor (width: int, editing: bool, autobreaks: bool, toc: seq<string>)
      ensures Valid()
      ensures buf == [] && output == [] && breakHints == map[] && currIndent == 0 && editCounter == 0
      ensures this.width == width && this.editing == editing && this.autobreaks == autobreaks && this.toc == toc
    {
      this.width := width;
      this.editing := editing;
      this.autobreaks := autobreaks;
      this.toc := toc;
      buf := [];
      currIndent := 0;
      breakHints := map[];
      output := [];
      editCounter := 0;
    }

    /** `write_nroff`: append a line holding an nroff request, unescaped. */
    method WriteNroff(line: string)
      requires Valid()
      modifies this`buf
      ensures Valid()
      ensures buf == old(buf) + [line]
    {
      buf := buf + [line];
    }

    /** `write_line`: append a line of text, escaped if it starts with a
        control character. */
    method WriteLine(line: string)
      requires Valid()
      requires line != []
      modifies this`buf
      ensures Valid()
      ensures buf == old(buf) + [EscapeLine(line)]
      ensures !StartsWithMeta(buf[|buf| - 1]) && EndsWith(buf[|buf| - 1], line)
    {
      var s := line;
      if s[0] in LinestartMeta {
        s := NroffEscapeLinestart(s).value;
      }
      EscapeLineKeepsLine(line);
      buf := buf + [s];
    }

    /** The inherited `_lb`: append one line holding `text` (blank by default). */
    method LineBreak(text: string)
      requires Valid()
      modifies this`buf
      ensures Valid()
      ensures buf == old(buf) + [text]
    {
      buf := buf + [text];
    }

    /** `_vspace`: the `.sp n` request. */
    method VSpace(num: int)
      requires Valid()
      modifies this`buf
      ensures Valid()
      ensures buf == old(buf) + [".sp " + IntToString(num)]
    {
      WriteNroff(".sp " + IntToString(num));
    }

    /** `_indent`: write `.in amount` unless that is already the indent. */
    method Indent(amount: int)
      requires Valid()
      modifies this`buf, this`currIndent
      ensures Valid()
      ensures buf == old(buf) + IndentCommands(old(currIndent), amount)
      ensures currIndent == amount
    {
      if amount != currIndent {
        WriteNroff(".in " + IntToString(amount));
        currIndent := amount;
      }
    }

    /** The escaping loop of `write_text`: each wrapped line that starts
        with a control character gets its escape. */
    method EscapeLines(lines: seq<string>) returns (par: seq<string>)
      requires NoEmptyLines(lines)
      ensures par == EscapeAll(lines)
    {
      par := lines;
      var i := 0;
      while i < |par|
        invariant 0 <= i <= |par| == |lines|
        invariant forall k :: 0 <= k < i ==> par[k] == EscapeLine(lines[k])
        invariant forall k :: i <= k < |par| ==> par[k] == lines[k]
      {
        if par[i][0] in LinestartMeta {
          par := par[i := NroffEscapeLinestart(par[i]).value];
        }
        i := i + 1;
      }
      EscapeAllPointwise(lines, par);
    }

    /** The start of `write_text`: a blank line, or the next editing mark
        when the block is marked for editing and editing marks are on. */
    method LeadingBlankline(leadingBlankline: bool, edit: bool)
      requires Valid()
      modifies this`buf, this`editCounter
      ensures Valid()
      ensures var mark := leadingBlankline && edit && editing;
        && buf == old(buf) + LeadLines(leadingBlankline, mark, old(editCounter))
        && editCounter == old(editCounter) + (if mark then 1 else 0)
    {
      if leadingBlankline {
        if edit && editing {
          editCounter := editCounter + 1;
          LineBreak(EditMark(editCounter));
        } else {
          LineBreak("");
        }
      }
    }

    /** The wrapping and escaping of a non-empty `write_text` block: the
        text, left-stripped if asked and behind its bullet, wrapped (double
        spaces collapsed only without a bullet), then each line escaped. */
    method WrapBlock(text: string, strip: bool, bullet: string, fixSentenceEndings: bool, wrap: Wrapper)
      returns (par: seq<string>)
      requires text != []
      requires Wrappable(text, strip, bullet, fixSentenceEndings, wrap)
      ensures par == EscapeAll(Wrapped(text, strip, bullet, fixSentenceEndings, wrap))
    {
      var s := if strip then LStrip(text) else text;
      var fixDoublespace;
      if !Blank(bullet) {
        s := bullet + s;
        fixDoublespace := false;
      } else {
        fixDoublespace := true;
      }
      par := wrap[WrapRequest(s, fixDoublespace, fixSentenceEndings)];
      par := EscapeLines(par);
    }

    /** The part of `write_text` after the leading line: the layout request,
        the bullet's `.ti`, and the block's lines. */
    method WriteBlockBody(text: string, indent: int, subIndent: int, bullet: string, align: string,
                          strip: bool, fixSentenceEndings: bool, wrap: Wrapper)
      requires Valid()
      requires Wrappable(text, strip, bullet, fixSentenceEndings, wrap)
      modifies this`buf, this`currIndent
      ensures Valid()
      ensures buf == old(buf) + TextBlock(text, indent, subIndent, bullet, align, strip, fixSentenceEndings, wrap, old(currIndent))
      ensures currIndent == if text != [] && align != "center" then FullIndent(indent, subIndent, bullet) else old(currIndent)
    {
      ghost var start := buf;
      ghost var wrapped := Wrapped(text, strip, bullet, fixSentenceEndings, wrap);
      ghost var layout := LayoutLines(text, align, |wrapped|, currIndent, FullIndent(indent, subIndent, bullet));
      var par: seq<string> := [];
      if text != [] {
        par := WrapBlock(text, strip, bullet, fixSentenceEndings, wrap);
        if align == "center" {
          WriteNroff(".ce " + IntToString(|par|));
        } else {
          Indent(FullIndent(indent, subIndent, bullet));
        }
      }
      assert buf == start + layout;
      ghost var afterLayout := buf;
      if !Blank(bullet) {
        WriteNroff(".ti " + IntToString(indent));
        if text == [] {
          par := par + [bullet];
        }
      }
      assert buf == afterLayout + BulletLines(bullet, indent);
      ghost var bulletLines := BulletLines(bullet, indent);
      assert par == ContentLines(text, bullet, wrapped);
      buf := buf + par;
      AppendAssoc(start, layout, bulletLines);
      AppendAssoc(start, layout + bulletLines, par);
    }

    /** Record that a block of the given kind begins at `begin` and runs to
        the current end of the buffer. */
    method AddHint(begin: int, kind: BlockClass)
      requires Valid()
      requires 0 <= begin <= |buf|
      modifies this`breakHints
      ensures Valid()
      ensures breakHints == old(breakHints)[begin := Hint(|buf| - begin, kind)]
    {
      breakHints := breakHints[begin := Hint(|buf| - begin, kind)];
    }

    /** `write_text` into the writer's own buffer: an optional blank line or
        editing mark, then `.ce k` or an indent change, a `.ti` line for a
        bullet, the escaped wrapped lines, and a `"txt"` hint at the offset
        where the block began, covering the whole block. */
    method WriteText(text: string, indent: int, subIndent: int, bullet: string, align: string,
                     leadingBlankline: bool, strip: bool, edit: bool, fixSentenceEndings: bool, wrap: Wrapper)
      requires Valid()
      requires Wrappable(text, strip, bullet, fixSentenceEndings, wrap)
      modifies this`buf, this`currIndent, this`editCounter, this`breakHints
      ensures Valid()
      ensures var mark := leadingBlankline && edit && editing;
        && buf == old(buf) + LeadLines(leadingBlankline, mark, old(editCounter))
                  + TextBlock(text, indent, subIndent, bullet, align, strip, fixSentenceEndings, wrap, old(currIndent))
        && editCounter == old(editCounter) + (if mark then 1 else 0)
      ensures currIndent == if text != [] && align != "center" then FullIndent(indent, subIndent, bullet) else old(currIndent)
      ensures breakHints == old(breakHints)[|old(buf)| := Hint(|buf| - |old(buf)|, Txt)]
    {
      var begin := |buf|;
      ghost var lead := LeadLines(leadingBlankline, leadingBlankline && edit && editing, editCounter);
      ghost var block := TextBlock(text, indent, subIndent, bullet, align, strip, fixSentenceEndings, wrap, currIndent);
      LeadingBlankline(leadingBlankline, edit);
      WriteBlockBody(text, indent, subIndent, bullet, align, strip, fixSentenceEndings, wrap);
      assert buf == old(buf) + lead + block;
      AddHint(begin, Txt);
    }

    /** `_post_write_toc`: the caller's lines followed by the table of
        contents in a no-fill region at indent 3 under a zero-indent caption. */
    method PostWriteToc(tmpbuf: seq<string>) returns (r: seq<string>)
      ensures r == tmpbuf + TocPreamble + toc + [".fi"]
      ensures r[|tmpbuf| + |TocPreamble| - 1] == ".nf" && r[|r| - 1] == ".fi"
      ensures r[|tmpbuf| + |TocPreamble|..|r| - 1] == toc
    {
      r := tmpbuf;
      r := r + [".ti 0"];
      r := r + ["Table of Contents"];
      r := r + [""];
      r := r + [".in 3"];
      r := r + [".nf"];
      r := r + toc;
      r := r + [".fi"];
    }

    /** The `write_text` call `write_title` makes for each of its lines: a
        centered, stripped block with no leading blank line; it writes
        `.ce k` and the `k` escaped wrapped lines, and records their hint. */
    method WriteCentered(text: string, wrap: Wrapper)
      requires Valid()
      requires Wrappable(text, true, "", true, wrap)
      modifies this`buf, this`currIndent, this`editCounter, this`breakHints
      ensures Valid()
      ensures buf == old(buf) + CenteredLines(text, wrap)
      ensures currIndent == old(currIndent) && editCounter == old(editCounter)
      ensures breakHints == old(breakHints)[|old(buf)| := Hint(|CenteredLines(text, wrap)|, Txt)]
    {
      ghost var start := buf;
      CenteredBlock(text, wrap, currIndent);
      WriteText(text, 0, 0, "", "center", false, true, false, true, wrap);
      assert start + [] == start;
    }

    /** `write_title`: a blank line, then the title and the document name
        (when there is one), each as a centered block with its own hint. */
    method WriteTitle(text: string, docName: string, wrap: Wrapper)
      requires Valid()
      requires Wrappable(text, true, "", true, wrap) && Wrappable(docName, true, "", true, wrap)
      modifies this`buf, this`currIndent, this`editCounter, this`breakHints
      ensures Valid()
      ensures currIndent == old(currIndent) && editCounter == old(editCounter)
      ensures docName != [] ==> buf == old(buf) + [""] + CenteredLines(text, wrap) + CenteredLines(docName, wrap)
      ensures docName == [] ==> buf == old(buf) + [""] + CenteredLines(text, wrap)
      ensures var title := CenteredLines(text, wrap);
        var b1 := |old(buf)| + 1;
        var first := old(breakHints)[b1 := Hint(|title|, Txt)];
        && (docName != [] ==> breakHints == first[b1 + |title| := Hint(|CenteredLines(docName, wrap)|, Txt)])
        && (docName == [] ==> breakHints == first)
    {
      LineBreak("");
      WriteCentered(text, wrap);
      if docName != [] {
        WriteCentered(docName, wrap);
      }
    }

    /** `write_raw`: a no-fill region at the given indent around the lines
        that the inherited `write_raw` renders (passed in as `rendered`). */
    method WriteRaw(rendered: seq<string>, indent: int)
      requires Valid()
      modifies this`buf, this`currIndent
      ensures Valid()
      ensures buf == old(buf) + IndentCommands(old(currIndent), indent) + [".nf"] + rendered + [".fi"]
      ensures currIndent == indent
    {
      Indent(indent);
      WriteNroff(".nf");
      buf := buf + rendered;
      WriteNroff(".fi");
    }

    /** `write_heading`: a blank line, a `.in` to the bullet's width when
        the heading is too long for one line (written directly, so the
        recorded indent is not updated), then `.ti 0` and the heading. */
    method WriteHeading(text: string, bullet: string)
      requires Valid()
      requires bullet != [] || text != []
      modifies this`buf
      ensures Valid()
      ensures var b := if bullet != [] then bullet + "  " else "";
        buf == old(buf) + [""] + (if |b + text| > width - 3 then [".in " + IntToString(|b|)] else [])
                + [".ti 0", EscapeLine(b + text)]
      ensures buf[|buf| - 2] == ".ti 0" && !StartsWithMeta(buf[|buf| - 1])
    {
      LineBreak("");
      var b := bullet;
      if b != [] {
        b := b + "  ";
      }
      if |b + text| > width - 3 {
        WriteNroff(".in " + IntToString(|b|));
      }
      WriteNroff(".ti 0");
      WriteLine(b + text);
    }

    /** `write_paragraph`: the text with its URLs marked, as a block at
        indent 3 after a blank line. */
    method WriteParagraph(text: string, align: string, wrap: Wrapper)
      requires Valid()
      requires Wrappable(UrlKeep(text), true, "", true, wrap)
      modifies this`buf, this`currIndent, this`editCounter, this`breakHints
      ensures Valid()
      ensures buf == old(buf) + [""] + TextBlock(UrlKeep(text), 3, 0, "", align, true, true, wrap, old(currIndent))
      ensures currIndent == if text != [] && align != "center" then 3 else old(currIndent)
      ensures editCounter == old(editCounter)
      ensures breakHints == old(breakHints)[|old(buf)| := Hint(|buf| - |old(buf)|, Txt)]
    {
      var t := UrlKeep(text);
      WriteText(t, 3, 0, "", align, true, true, false, true, wrap);
    }

    /** `pre_rendering`: the generator comment, a blank line, the settings,
        and the running header and footer strings. The comment is written
        as the nroff request it is meant to be (see `CommentLineAsWritten`
        for the escaped line xml2rfc's `pre_rendering` emits). */
    method PreRendering(version: string, stamp: string, running: RunningText)
      requires Valid()
      modifies this`buf
      ensures Valid()
      ensures buf == old(buf) + [CommentHeader(version, stamp), ""] + SettingsHeader
        + [".ds LH " + running.leftHeader, ".ds CH " + running.centerHeader, ".ds RH " + running.rightHeader,
           ".ds LF " + running.leftFooter, ".ds CF " + running.centerFooter, ".ds RF FORMFEED[Page %]"]
    {
      WriteNroff(CommentHeader(version, stamp));
      LineBreak("");
      buf := buf + SettingsHeader;
      WriteNroff(".ds LH " + running.leftHeader);
      WriteNroff(".ds CH " + running.centerHeader);
      WriteNroff(".ds RH " + running.rightHeader);
      WriteNroff(".ds LF " + running.leftFooter);
      WriteNroff(".ds CF " + running.centerFooter);
      WriteNroff(".ds RF FORMFEED[Page %]");
    }

    /** The break test of `post_rendering` for the line at `lineNum`: a
        hinted block starts there and the break rule asks for a new page. */
    method BreakBefore(lines: seq<string>, hints: map<int, Hint>, lineNum: nat, pageLen: int) returns (brk: bool)
      requires lineNum < |lines|
      ensures brk <==> lineNum in hints && HintedBreak(pageLen, hints[lineNum], lines[lineNum], autobreaks)
    {
      brk := false;
      if lineNum in hints {
        var available := PageMaxLen - pageLen;
        var needed := hints[lineNum].needed;
        var kind := hints[lineNum].kind;
        if Blank(lines[lineNum]) {
          available := available - 1;
          needed := needed - 1;
        }
        if || kind == Break
           || (kind == Raw && needed > available)
           || (autobreaks && needed > available && (needed - available < 2 || available < 2)) {
          brk := true;
        }
      }
    }

    /** One pass of the `post_rendering` loop: the break test, a `.bp` for
        a hinted break and another when the page is full, then the line. */
    method CopyLine(lines: seq<string>, hints: map<int, Hint>, lineNum: nat, pageLen: nat) returns (newLen: nat)
      requires lineNum < |lines| && pageLen <= PageMaxLen
      modifies this`output
      ensures var broke := (lineNum in hints && HintedBreak(pageLen, hints[lineNum], lines[lineNum], autobreaks))
                           || pageLen + 1 > PageMaxLen;
        && output == old(output) + (if broke then [BreakCommand] else []) + [lines[lineNum]]
        && newLen == if broke then 1 else pageLen + 1
    {
      newLen := pageLen;
      var brk := BreakBefore(lines, hints, lineNum, pageLen);
      if brk {
        output := output + [BreakCommand];
        newLen := 0;
      }
      if newLen + 1 > PageMaxLen {
        output := output + [BreakCommand];
        newLen := 0;
      }
      output := output + [lines[lineNum]];
      newLen := newLen + 1;
    }

    /** `post_rendering`: copy the buffer to the output, inserting `.bp`
        before a hinted block when the break rule says so and whenever a
        56th line would land on the current page. */
    method PostRendering()
      modifies this`output
      ensures output == old(output) + Render(Paginate(buf, breakHints, autobreaks))
    {
      var lines, hints := buf, breakHints;
      var pageLen: nat := 0;
      ghost var done: seq<Emit> := [];
      for lineNum := 0 to |lines|
        invariant pageLen <= PageMaxLen
        invariant done + PaginateFrom(lines, hints, autobreaks, lineNum, pageLen) == Paginate(lines, hints, autobreaks)
        invariant output == old(output) + Render(done)
      {
        CopyStep(lines, hints, autobreaks, lineNum, pageLen, done, old(output), output);
        done := done + StepAt(lines, hints, autobreaks, lineNum, pageLen).head;
        pageLen := CopyLine(lines, hints, lineNum, pageLen);
      }
      assert PaginateFrom(lines, hints, autobreaks, |lines|, pageLen) == [];
      assert done == Paginate(lines, hints, autobreaks);
    }
  }
}
