/** The pure specification of `post_rendering`: which page breaks the
    writer inserts while copying its buffer to the output, and the
    properties of the result. */
module Pagination {
  import opened Text

  /** Most buffer lines `post_rendering` puts on one page. */
  const PageMaxLen: nat := 55

  /** The nroff request that starts a new page. */
  const BreakCommand: string := ".bp"

  /** The class of a block recorded in a break hint: `"txt"` (flowed text),
      `"raw"` (a no-fill block) or `"break"` (an explicit page break). */
  datatype BlockClass = Txt | Raw | Break

  /** A break hint: how many buffer lines the block starting here needs. */
  datatype Hint = Hint(needed: int, kind: BlockClass)

  /** One output line: a page break inserted by `post_rendering`, or a line
      copied from the buffer. Keeping the two apart lets the properties
      speak of the inserted breaks even when a buffer line is itself `.bp`. */
  datatype Emit = PageBreak | Copy(line: string)

  /** The decision taken at a hinted line: break before it? A blank hinted
      line lowers both the room left on the page and the lines needed by one. */
  predicate HintedBreak(pageLen: int, hint: Hint, line: string, autobreaks: bool): (b: bool)
    // an explicit break request always breaks
    ensures hint.kind == Break ==> b
    // flowed text breaks early only when automatic breaks are on
    ensures hint.kind == Txt && !autobreaks ==> !b
    // a block that fits in the room left on the page is never moved
    ensures hint.needed <= PageMaxLen - pageLen ==> (b <==> hint.kind == Break)
  {
    var drop := if Blank(line) then 1 else 0;
    var available := PageMaxLen - pageLen - drop;
    var needed := hint.needed - drop;
    || hint.kind == Break
    || (hint.kind == Raw && needed > available)
    || (autobreaks && needed > available && (needed - available < 2 || available < 2))
  }

  /** Every hint lies within the buffer: its block starts at or before the
      end of the buffer and the lines it counts are there. */
  predicate HintsWithin(buf: seq<string>, hints: map<int, Hint>) {
    forall k :: k in hints ==> 0 <= k && 0 <= hints[k].needed && k + hints[k].needed <= |buf|
  }

  /** What `post_rendering` does at line `i` with `pageLen` lines on the
      page: the entries it appends and the page length afterwards. The loop
      makes two checks, the hinted rule and then the page limit; a hinted
      break empties the page, so the second check can only fire when the
      first did not, and the line gets at most one break in front of it. */
  datatype Step = Step(head: seq<Emit>, next: nat)

  function StepAt(buf: seq<string>, hints: map<int, Hint>, autobreaks: bool, i: nat, pageLen: nat): (s: Step)
    requires i < |buf|
    ensures s.head == [Copy(buf[i])] || s.head == [PageBreak, Copy(buf[i])]
    ensures |s.head| == 1 ==> s.next == pageLen + 1
    ensures |s.head| == 2 ==> s.next == 1
    ensures 1 <= s.next <= PageMaxLen
  {
    var broke := (i in hints && HintedBreak(pageLen, hints[i], buf[i], autobreaks)) || pageLen + 1 > PageMaxLen;
    if broke then Step([PageBreak, Copy(buf[i])], 1) else Step([Copy(buf[i])], pageLen + 1)
  }

  /** One step appends the line, after at most one break; the page then
      holds one line after a break, one line more otherwise. */
  lemma StepShape(buf: seq<string>, hints: map<int, Hint>, autobreaks: bool, i: nat, pageLen: nat)
    requires i < |buf| && pageLen <= PageMaxLen
    ensures var s := StepAt(buf, hints, autobreaks, i, pageLen);
      || (s.head == [Copy(buf[i])] && s.next == pageLen + 1 && pageLen < PageMaxLen)
      || (s.head == [PageBreak, Copy(buf[i])] && s.next == 1)
  {
  }

  /** One step of the copy loop: a `.bp` when the hinted rule or the page
      limit breaks (never both), then the line; the step is one unfolding
      of the paginated sequence. */
  lemma StepCases(buf: seq<string>, hints: map<int, Hint>, autobreaks: bool, i: nat, pageLen: nat)
    requires i < |buf| && pageLen <= PageMaxLen
    ensures var s := StepAt(buf, hints, autobreaks, i, pageLen);
      var hinted := i in hints && HintedBreak(pageLen, hints[i], buf[i], autobreaks);
      var broke := hinted || pageLen + 1 > PageMaxLen;
      && s.head == (if broke then [PageBreak] else []) + [Copy(buf[i])]
      && s.next == (if broke then 1 else pageLen + 1)
      && Render(s.head) == (if broke then [BreakCommand] else []) + [buf[i]]
      && PaginateFrom(buf, hints, autobreaks, i, pageLen) == s.head + PaginateFrom(buf, hints, autobreaks, i + 1, s.next)
  {
    var s := StepAt(buf, hints, autobreaks, i, pageLen);
    StepShape(buf, hints, autobreaks, i, pageLen);
    if |s.head| == 2 {
      assert Render(s.head) == [BreakCommand, buf[i]];
    } else {
      assert Render(s.head) == [buf[i]];
    }
  }

  /** One iteration of the copy loop keeps its two invariants: the emitted
      prefix and the remaining pagination make up the whole, and the output
      renders the emitted prefix. */
  lemma CopyStep(buf: seq<string>, hints: map<int, Hint>, autobreaks: bool, i: nat, pageLen: nat,
                 done: seq<Emit>, out0: seq<string>, out: seq<string>)
    requires i < |buf| && pageLen <= PageMaxLen
    requires done + PaginateFrom(buf, hints, autobreaks, i, pageLen) == Paginate(buf, hints, autobreaks)
    requires out == out0 + Render(done)
    ensures var s := StepAt(buf, hints, autobreaks, i, pageLen);
      var hinted := i in hints && HintedBreak(pageLen, hints[i], buf[i], autobreaks);
      var broke := hinted || pageLen + 1 > PageMaxLen;
      && s.next == (if broke then 1 else pageLen + 1)
      && (done + s.head) + PaginateFrom(buf, hints, autobreaks, i + 1, s.next) == Paginate(buf, hints, autobreaks)
      && out + (if broke then [BreakCommand] else []) + [buf[i]] == out0 + Render(done + s.head)
  {
    var s := StepAt(buf, hints, autobreaks, i, pageLen);
    StepCases(buf, hints, autobreaks, i, pageLen);
    RenderAppend(done, s.head);
    AppendAssoc(out0, Render(done), Render(s.head));
    AppendAssoc(done, s.head, PaginateFrom(buf, hints, autobreaks, i + 1, s.next));
  }

  /** At a line with no hint and room on the page, the line is simply copied. */
  lemma StepQuiet(buf: seq<string>, hints: map<int, Hint>, autobreaks: bool, i: nat, pageLen: nat)
    requires i < |buf| && i !in hints && pageLen < PageMaxLen
    ensures StepAt(buf, hints, autobreaks, i, pageLen) == Step([Copy(buf[i])], pageLen + 1)
  {
  }

  /** The output for buffer lines `i..` when `pageLen` lines are already on
      the current page. */
  function PaginateFrom(buf: seq<string>, hints: map<int, Hint>, autobreaks: bool, i: nat, pageLen: nat): (e: seq<Emit>)
    requires i <= |buf|
    // every remaining line is copied, with at most one break in front of it
    ensures |buf| - i <= |e| <= 2 * (|buf| - i)
    decreases |buf| - i
  {
    if i == |buf| then []
    else
      var s := StepAt(buf, hints, autobreaks, i, pageLen);
      s.head + PaginateFrom(buf, hints, autobreaks, i + 1, s.next)
  }

  /** The output `post_rendering` produces for the whole buffer, starting
      on an empty page: at least the buffer, at most twice as long. */
  function Paginate(buf: seq<string>, hints: map<int, Hint>, autobreaks: bool): (e: seq<Emit>)
    ensures |buf| <= |e| <= 2 * |buf|
  {
    PaginateFrom(buf, hints, autobreaks, 0, 0)
  }

  /** The lines written out: `.bp` for an inserted break, the line itself for a copy. */
  function Render(e: seq<Emit>): (out: seq<string>)
    ensures |out| == |e|
    ensures forall k :: 0 <= k < |e| ==> out[k] == (if e[k].PageBreak? then BreakCommand else e[k].line)
  {
    if e == [] then [] else [if e[0].PageBreak? then BreakCommand else e[0].line] + Render(e[1..])
  }

  lemma {:induction false} RenderAppend(a: seq<Emit>, b: seq<Emit>)
    ensures Render(a + b) == Render(a) + Render(b)
  {
    if a != [] {
      assert (a + b)[0] == a[0];
      assert (a + b)[1..] == a[1..] + b;
      RenderAppend(a[1..], b);
    }
  }

  /** The copied lines, in order: the output with the inserted breaks deleted. */
  function Lines(e: seq<Emit>): seq<string> {
    if e == [] then []
    else (if e[0].PageBreak? then [] else [e[0].line]) + Lines(e[1..])
  }

  function CountBreaks(e: seq<Emit>): nat {
    if e == [] then 0 else (if e[0].PageBreak? then 1 else 0) + CountBreaks(e[1..])
  }

  lemma {:induction false} LinesAppend(a: seq<Emit>, b: seq<Emit>)
    ensures Lines(a + b) == Lines(a) + Lines(b)
    ensures CountBreaks(a + b) == CountBreaks(a) + CountBreaks(b)
  {
    if a != [] {
      assert (a + b)[0] == a[0];
      assert (a + b)[1..] == a[1..] + b;
      LinesAppend(a[1..], b);
      var x := if a[0].PageBreak? then [] else [a[0].line];
      calc {
        Lines(a + b);
        x + Lines(a[1..] + b);
        x + (Lines(a[1..]) + Lines(b));
        (x + Lines(a[1..])) + Lines(b);
        Lines(a) + Lines(b);
      }
    } else {
      assert a + b == b;
    }
  }

  /** Every output line is either an inserted break or a copied line. */
  lemma {:induction false} LengthSplits(e: seq<Emit>)
    ensures |e| == |Lines(e)| + CountBreaks(e)
  {
    if e != [] {
      LengthSplits(e[1..]);
    }
  }

  lemma {:induction false} LinesFrom(buf: seq<string>, hints: map<int, Hint>, autobreaks: bool, i: nat, pageLen: nat)
    requires i <= |buf| && pageLen <= PageMaxLen
    ensures Lines(PaginateFrom(buf, hints, autobreaks, i, pageLen)) == buf[i..]
    decreases |buf| - i
  {
    if i < |buf| {
      var st := StepAt(buf, hints, autobreaks, i, pageLen);
      var tail := PaginateFrom(buf, hints, autobreaks, i + 1, st.next);
      assert Lines(st.head) == [buf[i]] && Lines(tail) == buf[i + 1..] by {
        StepShape(buf, hints, autobreaks, i, pageLen);
        assert Lines([Copy(buf[i])]) == [buf[i]];
        LinesFrom(buf, hints, autobreaks, i + 1, st.next);
      }
      LinesAppend(st.head, tail);
      assert buf[i..] == [buf[i]] + buf[i + 1..];
    }
  }

  /** Pagination preserves the buffer: deleting the inserted breaks from the
      output gives back every buffer line once, in order, so the output is
      longer than the buffer by exactly the number of inserted breaks. */
  lemma PaginatePreservesBuffer(buf: seq<string>, hints: map<int, Hint>, autobreaks: bool)
    ensures Lines(Paginate(buf, hints, autobreaks)) == buf
    ensures |Paginate(buf, hints, autobreaks)| == |buf| + CountBreaks(Paginate(buf, hints, autobreaks))
  {
    LinesFrom(buf, hints, autobreaks, 0, 0);
    LengthSplits(Paginate(buf, hints, autobreaks));
  }

  /** The output cut at its inserted breaks: the lines of each page. */
  function Pages(e: seq<Emit>): (ps: seq<seq<string>>)
    ensures |ps| >= 1
  {
    if e == [] then [[]]
    else
      var rest := Pages(e[1..]);
      if e[0].PageBreak? then [[]] + rest else [[e[0].line] + rest[0]] + rest[1..]
  }

  function Flatten(ps: seq<seq<string>>): seq<string> {
    if ps == [] then [] else ps[0] + Flatten(ps[1..])
  }

  /** Cutting at the breaks loses no line, and gives one page more than breaks. */
  lemma {:induction false} PagesPartitionLines(e: seq<Emit>)
    ensures Flatten(Pages(e)) == Lines(e)
    ensures |Pages(e)| == CountBreaks(e) + 1
  {
    if e != [] {
      PagesPartitionLines(e[1..]);
      var rest := Pages(e[1..]);
      if e[0].Copy? {
        assert Flatten(rest) == rest[0] + Flatten(rest[1..]);
        assert Pages(e)[1..] == rest[1..];
      } else {
        assert Pages(e)[1..] == rest;
      }
    }
  }

  /** The first page holds at most `PageMaxLen - pageLen` lines, every later
      page between 1 and `PageMaxLen`. */
  predicate PagesFit(ps: seq<seq<string>>, pageLen: int) {
    && |ps| >= 1
    && |ps[0]| + pageLen <= PageMaxLen
    && forall k :: 1 <= k < |ps| ==> 1 <= |ps[k]| <= PageMaxLen
  }

  /** A copied line joins the first page. */
  lemma PagesCopy(line: string, tail: seq<Emit>)
    ensures var rt := Pages(tail);
      Pages([Copy(line)] + tail) == [[line] + rt[0]] + rt[1..]
  {
    assert ([Copy(line)] + tail)[1..] == tail;
  }

  /** A break starts a new, empty first page. */
  lemma PagesBreak(tail: seq<Emit>)
    ensures Pages([PageBreak] + tail) == [[]] + Pages(tail)
  {
    assert ([PageBreak] + tail)[1..] == tail;
  }

  /** A copied line in front of a tail whose pages fit takes one more place
      on the first page. */
  lemma PagesFitCopy(line: string, tail: seq<Emit>, pageLen: nat)
    requires PagesFit(Pages(tail), pageLen + 1)
    ensures PagesFit(Pages([Copy(line)] + tail), pageLen)
  {
    var rt := Pages(tail);
    var pl := Pages([Copy(line)] + tail);
    assert pl == [[line] + rt[0]] + rt[1..] by {
      PagesCopy(line, tail);
    }
    assert forall k :: 1 <= k < |pl| ==> pl[k] == rt[k];
  }

  /** A break and a line in front of a tail whose pages fit on a fresh page
      close the current page and keep the pages fitting. */
  lemma PagesFitBreak(line: string, tail: seq<Emit>, pageLen: nat)
    requires PagesFit(Pages(tail), 1) && pageLen <= PageMaxLen
    ensures PagesFit(Pages([PageBreak, Copy(line)] + tail), pageLen)
  {
    var withLine := [Copy(line)] + tail;
    assert PagesFit(Pages(withLine), 0) by {
      PagesFitCopy(line, tail, 0);
    }
    var pl := Pages(withLine);
    var pb := Pages([PageBreak, Copy(line)] + tail);
    assert pb == [[]] + pl by {
      assert [PageBreak, Copy(line)] + tail == [PageBreak] + withLine;
      PagesBreak(withLine);
    }
    assert forall k :: 1 <= k < |pb| ==> pb[k] == pl[k - 1];
  }

  /** Pages of `PaginateFrom(.., i, pageLen)`: the first continues a page
      already holding `pageLen` lines, each later one holds 1 to 55 lines. */
  lemma {:induction false} PagesFrom(buf: seq<string>, hints: map<int, Hint>, autobreaks: bool, i: nat, pageLen: nat)
    requires i <= |buf| && pageLen <= PageMaxLen
    ensures var ps := Pages(PaginateFrom(buf, hints, autobreaks, i, pageLen));
      && |ps[0]| + pageLen <= PageMaxLen
      && forall k :: 1 <= k < |ps| ==> 1 <= |ps[k]| <= PageMaxLen
    decreases |buf| - i
  {
    var e := PaginateFrom(buf, hints, autobreaks, i, pageLen);
    if i < |buf| {
      var st := StepAt(buf, hints, autobreaks, i, pageLen);
      var tail := PaginateFrom(buf, hints, autobreaks, i + 1, st.next);
      assert e == st.head + tail;
      StepShape(buf, hints, autobreaks, i, pageLen);
      assert PagesFit(Pages(tail), st.next) by {
        PagesFrom(buf, hints, autobreaks, i + 1, st.next);
      }
      if st.head == [Copy(buf[i])] {
        PagesFitCopy(buf[i], tail, pageLen);
      } else {
        PagesFitBreak(buf[i], tail, pageLen);
      }
    }
    assert PagesFit(Pages(e), pageLen);
  }

  /** Page capacity: no page of the output holds more than 55 buffer lines,
      and every page after the first holds at least one (a break is always
      followed by a buffer line before the next break or the end). */
  lemma PageCapacity(buf: seq<string>, hints: map<int, Hint>, autobreaks: bool)
    ensures var ps := Pages(Paginate(buf, hints, autobreaks));
      forall k :: 0 <= k < |ps| ==> (k > 0 ==> 1 <= |ps[k]|) && |ps[k]| <= PageMaxLen
  {
    PagesFrom(buf, hints, autobreaks, 0, 0);
  }

  /** A blank hinted line lowers `available` and `needed` alike, so whether
      the block overflows is decided on the unadjusted numbers. */
  lemma HintedBreakOnRawNumbers(pageLen: int, hint: Hint, line: string, autobreaks: bool)
    ensures HintedBreak(pageLen, hint, line, autobreaks) <==>
      || hint.kind == Break
      || (hint.kind == Raw && hint.needed > PageMaxLen - pageLen)
      || (autobreaks && hint.needed > PageMaxLen - pageLen
          && (hint.needed - (PageMaxLen - pageLen) < 2 || PageMaxLen - pageLen - (if Blank(line) then 1 else 0) < 2))
  {
  }

  /** The worked cases of the break rule for a 10-line text block. */
  lemma HintedBreakExamples()
    ensures HintedBreak(54, Hint(10, Txt), "text", true)
    ensures !HintedBreak(53, Hint(10, Txt), "text", true)
    ensures !HintedBreak(50, Hint(10, Txt), "text", true)
    ensures !HintedBreak(54, Hint(10, Txt), "text", false)
  {
    assert !Blank("text") by {
      assert LStrip("text") == "text";
    }
  }

  /** A raw block that fits on one page has room on the page it starts on,
      once the decision at its first line is taken. */
  lemma RawBlockHasRoom(pageLen: int, hint: Hint, line: string, autobreaks: bool)
    requires 0 <= pageLen <= PageMaxLen
    requires hint.kind == Raw && hint.needed <= PageMaxLen
    ensures hint.needed <= PageMaxLen - (if HintedBreak(pageLen, hint, line, autobreaks) then 0 else pageLen)
  {
  }

  /** The output entries of a run of lines copied without breaks. */
  function Copies(lines: seq<string>): (e: seq<Emit>)
    ensures |e| == |lines|
  {
    if lines == [] then [] else [Copy(lines[0])] + Copies(lines[1..])
  }

  /** A run starting at `i` is its first copy followed by the rest of the run. */
  lemma CopiesCons(buf: seq<string>, i: nat, j: nat)
    requires i < j <= |buf|
    ensures [Copy(buf[i])] + Copies(buf[i + 1..j]) == Copies(buf[i..j])
  {
    assert buf[i..j][1..] == buf[i + 1..j];
  }

  /** An unhinted line on a page with room is copied, and the rest follows
      on the same page. */
  lemma QuietLine(buf: seq<string>, hints: map<int, Hint>, autobreaks: bool, i: nat, pageLen: nat)
    requires i < |buf| && i !in hints && pageLen < PageMaxLen
    ensures PaginateFrom(buf, hints, autobreaks, i, pageLen)
      == [Copy(buf[i])] + PaginateFrom(buf, hints, autobreaks, i + 1, pageLen + 1)
  {
    StepQuiet(buf, hints, autobreaks, i, pageLen);
  }

  /** Lines `i..j` with no hint, on a page with room for them, are copied
      without a break; the page then holds `endLen` lines. */
  lemma {:induction false} QuietRun(buf: seq<string>, hints: map<int, Hint>, autobreaks: bool,
                                    i: nat, j: nat, pageLen: nat, endLen: nat)
    requires i <= j <= |buf|
    requires endLen == pageLen + (j - i) <= PageMaxLen
    requires forall k :: i <= k < j ==> k !in hints
    ensures PaginateFrom(buf, hints, autobreaks, i, pageLen)
      == Copies(buf[i..j]) + PaginateFrom(buf, hints, autobreaks, j, endLen)
    decreases j - i
  {
    if i == j {
      assert Copies(buf[i..j]) == [];
    } else {
      var rest := PaginateFrom(buf, hints, autobreaks, j, endLen);
      var run := Copies(buf[i + 1..j]);
      var tail := PaginateFrom(buf, hints, autobreaks, i + 1, pageLen + 1);
      QuietLine(buf, hints, autobreaks, i, pageLen);
      QuietRun(buf, hints, autobreaks, i + 1, j, pageLen + 1, endLen);
      CopiesCons(buf, i, j);
      AppendAssoc([Copy(buf[i])], run, rest);
    }
  }

  /** A raw block of at most 55 lines, with no other hint inside it, is
      printed on a single page: the step at its first line (a break when the
      rule fires, then the line) leaves room for the whole block, and the
      block's other lines follow as copies with no break between them. */
  lemma RawBlockOnOnePage(buf: seq<string>, hints: map<int, Hint>, autobreaks: bool, i: nat, pageLen: nat)
    requires i < |buf| && pageLen <= PageMaxLen
    requires i in hints && hints[i].kind == Raw
    requires HintsWithin(buf, hints) && 1 <= hints[i].needed <= PageMaxLen
    requires forall k :: i < k < i + hints[i].needed ==> k !in hints
    ensures var st := StepAt(buf, hints, autobreaks, i, pageLen);
      var n := hints[i].needed;
      && st.next + n - 1 <= PageMaxLen
      && PaginateFrom(buf, hints, autobreaks, i, pageLen)
        == st.head + (Copies(buf[i + 1..i + n]) + PaginateFrom(buf, hints, autobreaks, i + n, st.next + n - 1))
  {
    var st := StepAt(buf, hints, autobreaks, i, pageLen);
    var n := hints[i].needed;
    assert st.next + n - 1 <= PageMaxLen by {
      RawBlockHasRoom(pageLen, hints[i], buf[i], autobreaks);
    }
    assert PaginateFrom(buf, hints, autobreaks, i, pageLen)
      == st.head + PaginateFrom(buf, hints, autobreaks, i + 1, st.next);
    QuietRun(buf, hints, autobreaks, i + 1, i + n, st.next, st.next + n - 1);
  }

}
