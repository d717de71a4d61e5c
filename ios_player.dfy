/** The iOS reader's sentence player, as values: the document-wide list of
    sentences `loadDocument` builds, and the moves of the sentence cursor
    (`speakCurrentItem`, the synthesizer's "did finish" callback, play/pause,
    restart, jump to a saved sentence), each a function from the player's
    state to its next state.  `IosReader` holds the same state in the view
    controller's own fields. */
module IosPlayer {
  import opened MuPdfEngine
  import T = TextUtil

  // ---------------------------------------------------------------------
  // The sentence list

  /** One spoken sentence: the index of its page and its trimmed text (the
      range it covers on the page only drives highlighting). */
  datatype Item = Item(page: nat, text: string)

  /** What `loadDocument` reads from PDFKit: the page count, each page's
      text (`page.string`, `None` when the page has none), and the sentence
      tokens `NLTokenizer` finds in a text. */
  datatype Doc = Doc(pageCount: nat, pageText: nat -> Option<string>, sentences: string -> seq<string>)

  /** The sentences of a text as items of page `page`. */
  function Tagged(page: nat, ss: seq<string>): (r: seq<Item>)
    ensures |r| == |ss|
    ensures forall k :: 0 <= k < |r| ==> r[k] == Item(page, ss[k])
  {
    seq(|ss|, k requires 0 <= k < |ss| => Item(page, ss[k]))
  }

  /** Adding a sentence adds its item at the end. */
  lemma TaggedSnoc(page: nat, ss: seq<string>, s: string)
    ensures Tagged(page, ss + [s]) == Tagged(page, ss) + [Item(page, s)]
  {
    assert Tagged(page, ss + [s])[..|ss|] == Tagged(page, ss);
  }

  /** The items the `k`-th sentence token adds: its trimmed text tagged
      with the page, or nothing when that text is empty. */
  lemma TaggedSentencesStep(page: nat, tokens: seq<string>, k: nat)
    requires 0 < k <= |tokens|
    ensures var s := T.Trim(tokens[k - 1], T.IsWhitespaceOrNewline);
      Tagged(page, T.Sentences(tokens[..k], T.IsWhitespaceOrNewline))
      == Tagged(page, T.Sentences(tokens[..k - 1], T.IsWhitespaceOrNewline))
         + (if s == "" then [] else [Item(page, s)])
  {
    var s := T.Trim(tokens[k - 1], T.IsWhitespaceOrNewline);
    var before := T.Sentences(tokens[..k - 1], T.IsWhitespaceOrNewline);
    T.SentencesStep(tokens, k - 1, T.IsWhitespaceOrNewline);
    if s != "" {
      TaggedSnoc(page, before, s);
    } else {
      assert before + [] == before;
    }
  }

  /** The items the first `k` sentence tokens of a page give, token by
      token: the tokenizer loop's running result. */
  function TokenItems(page: nat, tokens: seq<string>, k: nat): seq<Item>
    requires k <= |tokens|
  {
    if k == 0 then []
    else
      var s := T.Trim(tokens[k - 1], T.IsWhitespaceOrNewline);
      TokenItems(page, tokens, k - 1) + (if s == "" then [] else [Item(page, s)])
  }

  /** Token by token, the loop builds the tagged sentence list. */
  lemma {:induction false} TokenItemsAreTaggedSentences(page: nat, tokens: seq<string>, k: nat)
    requires k <= |tokens|
    ensures TokenItems(page, tokens, k) == Tagged(page, T.Sentences(tokens[..k], T.IsWhitespaceOrNewline))
  {
    if k > 0 {
      TokenItemsAreTaggedSentences(page, tokens, k - 1);
      TaggedSentencesStep(page, tokens, k);
    }
  }

  /** The items one page contributes: none when it has no text or an empty
      one, else its non-empty trimmed sentence tokens, in order. */
  function PageItems(doc: Doc, i: nat): seq<Item> {
    match doc.pageText(i)
    case None => []
    case Some(text) =>
      if text == "" then [] else Tagged(i, T.Sentences(doc.sentences(text), T.IsWhitespaceOrNewline))
  }

  /** The items of the first `n` pages, page after page. */
  function DocItems(doc: Doc, n: nat): seq<Item> {
    Concat((i: nat) => PageItems(doc, i), n)
  }

  /** The runs `pages(0)`, ..., `pages(n - 1)` one after the other. */
  function Concat(pages: nat -> seq<Item>, n: nat): seq<Item> {
    if n == 0 then [] else Concat(pages, n - 1) + pages(n - 1)
  }

  /** What one page adds to the text sent to the app: its text and a line
      break, or nothing for a page without text. */
  function PageContent(doc: Doc, i: nat): string {
    match doc.pageText(i)
    case None => ""
    case Some(text) => if text == "" then "" else text + "\n"
  }

  function DocContent(doc: Doc, n: nat): string {
    if n == 0 then "" else DocContent(doc, n - 1) + PageContent(doc, n - 1)
  }

  /** An item of the first `n` pages, as `loadDocument` makes them. */
  ghost predicate ItemOf(it: Item, n: nat) {
    it.page < n && |it.text| > 0 && T.Trimmed(it.text, T.IsWhitespaceOrNewline)
  }

  /** A page whose text is missing or empty contributes no item. */
  lemma PageWithoutTextSkipped(doc: Doc, i: nat)
    requires doc.pageText(i).None? || doc.pageText(i).value == ""
    ensures PageItems(doc, i) == [] && PageContent(doc, i) == ""
  {
  }

  /** Every item of page `i` names that page, and its text is non-empty
      and trimmed. */
  lemma PageItemsWellFormed(doc: Doc, i: nat)
    ensures forall it :: it in PageItems(doc, i) ==> it.page == i && ItemOf(it, i + 1)
  {
  }

  /** Every item of a concatenation comes from one of its runs. */
  lemma {:induction false} ConcatMember(pages: nat -> seq<Item>, n: nat, it: Item)
    requires it in Concat(pages, n)
    ensures exists i :: 0 <= i < n && it in pages(i)
  {
    if it !in Concat(pages, n - 1) {
      assert it in pages(n - 1);
    } else {
      ConcatMember(pages, n - 1, it);
    }
  }

  /** Concatenating more runs only appends. */
  lemma {:induction false} ConcatPrefix(pages: nat -> seq<Item>, n: nat, m: nat)
    requires n <= m
    ensures Concat(pages, n) <= Concat(pages, m)
    decreases m
  {
    if n < m {
      ConcatPrefix(pages, n, m - 1);
    }
  }

  /** Items sorted by page. */
  ghost predicate InPageOrder(items: seq<Item>) {
    forall a, b :: 0 <= a < b < |items| ==> items[a].page <= items[b].page
  }

  /** When run `i` holds only items of page `i`, the concatenation is in
      page order. */
  lemma {:induction false} ConcatInPageOrder(pages: nat -> seq<Item>, n: nat)
    requires forall i, it :: 0 <= i < n && it in pages(i) ==> it.page == i
    ensures InPageOrder(Concat(pages, n))
  {
    if n > 0 {
      var x, y := Concat(pages, n - 1), pages(n - 1);
      ConcatInPageOrder(pages, n - 1);
      forall u | u in x
        ensures u.page < n - 1
      {
        ConcatMember(pages, n - 1, u);
      }
      JoinInPageOrder(x, y, n - 1);
    }
  }

  /** A run in page order followed by items of one later page is still in
      page order. */
  lemma JoinInPageOrder(x: seq<Item>, y: seq<Item>, p: nat)
    requires InPageOrder(x)
    requires forall u :: u in x ==> u.page < p
    requires forall v :: v in y ==> v.page == p
    ensures InPageOrder(x + y)
  {
    var xy := x + y;
    forall a, b | 0 <= a < b < |xy|
      ensures xy[a].page <= xy[b].page
    {
      if b < |x| {
        assert xy[a] == x[a] && xy[b] == x[b];
      } else if a >= |x| {
        assert xy[a] == y[a - |x|] && xy[b] == y[b - |x|];
        assert y[a - |x|] in y && y[b - |x|] in y;
      } else {
        assert xy[a] == x[a] && xy[b] == y[b - |x|];
        assert x[a] in x && y[b - |x|] in y;
      }
    }
  }

  /** Every item of the first `n` pages names one of those pages, and its
      text is non-empty and trimmed. */
  lemma DocItemsWellFormed(doc: Doc, n: nat)
    ensures forall it :: it in DocItems(doc, n) ==> ItemOf(it, n)
  {
    forall it | it in DocItems(doc, n)
      ensures ItemOf(it, n)
    {
      ConcatMember((i: nat) => PageItems(doc, i), n, it);
      var i :| 0 <= i < n && it in PageItems(doc, i);
      PageItemsWellFormed(doc, i);
    }
  }

  /** Items come in page order. */
  lemma DocItemsInPageOrder(doc: Doc, n: nat)
    ensures InPageOrder(DocItems(doc, n))
  {
    forall i, it | 0 <= i < n && it in PageItems(doc, i)
      ensures it.page == i
    {
      PageItemsWellFormed(doc, i);
    }
    ConcatInPageOrder((i: nat) => PageItems(doc, i), n);
  }

  /** Loading more pages only appends: the items of the first `n` pages are
      a prefix of those of the first `m`. */
  lemma DocItemsPrefix(doc: Doc, n: nat, m: nat)
    requires n <= m
    ensures DocItems(doc, n) <= DocItems(doc, m)
  {
    ConcatPrefix((i: nat) => PageItems(doc, i), n, m);
  }

  /** No text is sent exactly when no page of the document has text, and
      then no page contributes an item either. */
  lemma {:induction false} DocContentEmpty(doc: Doc, n: nat)
    ensures DocContent(doc, n) == "" <==> forall i :: 0 <= i < n ==> PageContent(doc, i) == ""
    ensures DocContent(doc, n) == "" ==> DocItems(doc, n) == []
  {
    if n > 0 {
      DocContentEmpty(doc, n - 1);
      if PageContent(doc, n - 1) != "" {
        assert |DocContent(doc, n)| >= |PageContent(doc, n - 1)| > 0;
      }
    }
  }

  // ---------------------------------------------------------------------
  // Navigation

  /** `jumpToPage`: with a document shown, a page number from 1 to the page
      count selects the page at index `pageNumber - 1`; any other number,
      or no document, is ignored. */
  function JumpTarget(pageNumber: int, pageCount: Option<nat>): (r: Option<nat>)
    ensures r.Some? <==> pageCount.Some? && 1 <= pageNumber <= pageCount.value
    ensures r.Some? ==> r.value == pageNumber - 1 && r.value < pageCount.value
  {
    if pageCount.Some? && pageNumber > 0 && pageNumber <= pageCount.value then Some(pageNumber - 1)
    else None
  }

  /** `addNote`: the trimmed selected text and the human page number of the
      selection's first page (1 when that page cannot be determined), or
      ("", 0) when nothing is selected. */
  function NoteEvent(selected: Option<string>, selectionPage: Option<nat>): (r: (string, int))
    ensures selected.None? ==> r == ("", 0)
    ensures selected.Some? ==> r.0 == T.Trim(selected.value, T.IsWhitespaceOrNewline) && r.1 >= 1
    ensures selected.Some? && selectionPage.Some? ==> r.1 == selectionPage.value + 1
  {
    match selected
    case None => ("", 0)
    case Some(s) =>
      (T.Trim(s, T.IsWhitespaceOrNewline), if selectionPage.Some? then selectionPage.value + 1 else 1)
  }

  /** A note about a selection never carries page number 0, so the receiver
      can tell "no selection" apart even when the selected text trims to
      nothing. */
  lemma NoteEventPageTellsSelection(selected: Option<string>, selectionPage: Option<nat>)
    ensures NoteEvent(selected, selectionPage).1 == 0 <==> selected.None?
  {
  }

  // ---------------------------------------------------------------------
  // The synthesizer and the cursor

  /** What `AVSpeechSynthesizer` reports: idle, speaking, or paused. */
  datatype Synth = Idle | Speaking | Paused

  /** `speak(u)`: an idle synthesizer starts; a paused one queues it. */
  function Speak(s: Synth): Synth {
    if s == Idle then Speaking else s
  }

  /** `pauseSpeaking(at: .word)` pauses only what is being spoken. */
  function Pause(s: Synth): Synth {
    if s == Speaking then Paused else s
  }

  /** The view controller's playing state: the sentence list and cursor,
      the two flags, the synthesizer, the texts handed to it so far, the
      page shown, and the page count of the shown document (if any). */
  datatype Player = Player(
    items: seq<Item>,
    currentIndex: int,
    isPlaying: bool,
    isResetPlayer: bool,
    synth: Synth,
    spoken: seq<string>,
    shownPage: Option<nat>,
    pageCount: Option<nat>)

  /** The state of a fresh view controller. */
  const Initial := Player([], 0, false, false, Idle, [], None, None)

  /** The cursor never goes below 0 (the source never stores a negative
      index), and it never goes past the end of the list. */
  ghost predicate Inv(p: Player) {
    0 <= p.currentIndex <= |p.items|
  }

  /** `loadDocument`: the list is rebuilt from the document, the first page
      is shown, and the cursor is left where it was. */
  function LoadDocument(p: Player, doc: Doc): Player {
    p.(items := DocItems(doc, doc.pageCount), pageCount := Some(doc.pageCount),
       shownPage := if doc.pageCount > 0 then Some(0) else p.shownPage)
  }

  /** Loading a document whose list is at least as long as the cursor keeps
      the invariant; a shorter one can leave the cursor past its end. */
  lemma LoadDocumentKeepsCursor(p: Player, doc: Doc)
    requires 0 <= p.currentIndex
    ensures LoadDocument(p, doc).currentIndex == p.currentIndex
    ensures Inv(LoadDocument(p, doc)) <==> p.currentIndex <= |DocItems(doc, doc.pageCount)|
  {
  }

  function JumpToPage(p: Player, pageNumber: int): (r: Player) {
    var target := JumpTarget(pageNumber, p.pageCount);
    if target.Some? then p.(shownPage := target) else p
  }

  /** `jumpToSavedPosition`: an index inside the list becomes the cursor
      and its page is shown; any larger one is ignored.  A negative index
      is excluded by the caller (it would trap on the array access). */
  function JumpToSavedPosition(p: Player, index: int): Player
    requires index < |p.items| ==> index >= 0
  {
    if index < |p.items| then p.(currentIndex := index, shownPage := Some(p.items[index].page))
    else p
  }

  /** `speakCurrentItem`: with no sentence at the cursor, playing stops and
      nothing is spoken; otherwise the sentence's page is shown and its text
      is handed to the synthesizer. */
  function SpeakCurrentItem(p: Player): (r: Player)
    requires p.currentIndex >= 0
  {
    if |p.items| == 0 || p.currentIndex >= |p.items| then p.(isPlaying := false)
    else
      var item := p.items[p.currentIndex];
      p.(shownPage := Some(item.page), spoken := p.spoken + [item.text], synth := Speak(p.synth))
  }

  /** The play/pause button: pausing pauses the synthesizer; playing resumes
      a paused synthesizer or else speaks the current sentence; the flag is
      set to playing afterwards either way. */
  function TogglePlayPause(p: Player): Player
    requires p.currentIndex >= 0
  {
    if p.isPlaying then p.(synth := Pause(p.synth), isPlaying := false)
    else
      var q := if p.synth == Paused then p.(synth := Speaking) else SpeakCurrentItem(p);
      q.(isPlaying := true)
  }

  /** `restartReading` as written: back to the first sentence with the reset
      flag raised and the synthesizer stopped, then the first item's page is
      shown; with no items, the access to the first item traps. */
  function RestartReadingAsWritten(p: Player): Outcome<Player> {
    if |p.items| == 0 then Threw
    else Returned(p.(currentIndex := 0, isResetPlayer := true, synth := Idle,
                     shownPage := Some(p.items[0].page)))
  }

  /** `restartReading` with the first item looked up only when there is
      one. */
  function RestartReading(p: Player): Player {
    p.(currentIndex := 0, isResetPlayer := true, synth := Idle,
       shownPage := if |p.items| > 0 then Some(p.items[0].page) else p.shownPage)
  }

  /** The restart of a document without sentences (a scanned PDF, say)
      traps as written; the guarded restart moves the cursor home instead.
      On any other document the two agree. */
  lemma RestartReadingTrapsOnEmptyList()
    ensures RestartReadingAsWritten(Initial).Threw?
    ensures RestartReading(Initial).currentIndex == 0 && RestartReading(Initial).isResetPlayer
  {
  }

  lemma RestartReadingAgrees(p: Player)
    ensures |p.items| > 0 <==> RestartReadingAsWritten(p).Returned?
    ensures |p.items| > 0 ==> RestartReadingAsWritten(p).value == RestartReading(p)
  {
  }

  /** `restartPlaying`, half a second later: drop the reset flag, mark
      playing, and speak the current sentence. */
  function RestartPlaying(p: Player): Player
    requires p.currentIndex >= 0
  {
    SpeakCurrentItem(p.(isResetPlayer := false, isPlaying := true))
  }

  /** The synthesizer finished an utterance and reports it: it is idle again.
      During a restart the controller ignores the report; otherwise the
      cursor moves one sentence on, but never past the end of the list, and
      the next sentence is spoken if there is one, or playing stops. */
  function DidFinish(p: Player): Player
    requires p.currentIndex >= 0
  {
    var p0 := p.(synth := Idle);
    if p0.isResetPlayer then p0
    else
      var q := p0.(currentIndex := Min(p0.currentIndex + 1, Max(0, |p0.items|)));
      if q.currentIndex < |q.items| then SpeakCurrentItem(q) else q.(isPlaying := false)
  }

  function Min(a: int, b: int): int { if a <= b then a else b }
  function Max(a: int, b: int): int { if a >= b then a else b }

  /** The progress bar: the share of the sentences before the cursor. */
  function Progress(p: Player): real {
    if |p.items| == 0 then 0.0 else p.currentIndex as real / |p.items| as real
  }

  // ---------------------------------------------------------------------
  // Properties of the cursor

  /** A report arriving during a restart changes nothing but the
      synthesizer. */
  lemma DidFinishDuringRestart(p: Player)
    requires p.currentIndex >= 0 && p.isResetPlayer
    ensures DidFinish(p) == p.(synth := Idle)
  {
  }

  /** After a report (outside a restart) the cursor is within the list,
      whatever it was before; it has moved one sentence on when it was
      before the end, and it speaks exactly when a sentence is left. */
  lemma DidFinishAdvances(p: Player)
    requires p.currentIndex >= 0 && !p.isResetPlayer
    ensures var r := DidFinish(p);
      && Inv(r)
      && (p.currentIndex < |p.items| ==> r.currentIndex == p.currentIndex + 1)
      && (p.currentIndex >= |p.items| ==> r.currentIndex == |p.items|)
      && (r.currentIndex < |p.items| ==>
            r.spoken == p.spoken + [p.items[r.currentIndex].text] && r.isPlaying == p.isPlaying)
      && (r.currentIndex == |p.items| ==> r.spoken == p.spoken && !r.isPlaying)
  {
  }

  /** `speakCurrentItem` speaks exactly when the cursor is on a sentence,
      and stops playing otherwise. */
  lemma SpeakCurrentItemGuard(p: Player)
    requires p.currentIndex >= 0
    ensures var r := SpeakCurrentItem(p);
      && (p.currentIndex < |p.items| ==>
            r.spoken == p.spoken + [p.items[p.currentIndex].text] && r.isPlaying == p.isPlaying
            && r.shownPage == Some(p.items[p.currentIndex].page))
      && (p.currentIndex >= |p.items| ==> r == p.(isPlaying := false))
  {
  }

  /** Every move other than loading a document keeps the cursor within the
      list. */
  lemma MovesPreserveInv(p: Player, index: int, pageNumber: int)
    requires Inv(p)
    requires index < |p.items| ==> index >= 0
    ensures Inv(SpeakCurrentItem(p)) && Inv(DidFinish(p)) && Inv(TogglePlayPause(p))
    ensures Inv(RestartReading(p)) && Inv(RestartPlaying(p)) && Inv(JumpToPage(p, pageNumber))
    ensures Inv(JumpToSavedPosition(p, index))
  {
  }

  /** Within the invariant the progress bar reads between 0 and 1, and it
      is full exactly at the end of a non-empty list. */
  lemma ProgressBounds(p: Player)
    requires Inv(p)
    ensures 0.0 <= Progress(p) <= 1.0
    ensures |p.items| > 0 ==> (Progress(p) == 1.0 <==> p.currentIndex == |p.items|)
  {
    if |p.items| > 0 {
      var n := |p.items| as real;
      var i := p.currentIndex as real;
      assert i <= n;
      assert i / n <= 1.0 by { assert i / n * n == i; }
      if i / n == 1.0 {
        assert i == i / n * n;
      }
    }
  }

  /** Pressing play with nothing to read still shows "playing": the guard
      in `speakCurrentItem` clears the flag, and the button handler sets it
      again. */
  lemma PlayWithNothingToRead(p: Player)
    requires p.currentIndex >= |p.items| && !p.isPlaying && p.synth != Paused
    ensures TogglePlayPause(p).isPlaying && TogglePlayPause(p).spoken == p.spoken
  {
  }

  /** `k` reports in a row, applied to a state. */
  function Finished(p: Player, k: nat): (r: Player)
    requires p.currentIndex >= 0
    ensures r.currentIndex >= 0
  {
    if k == 0 then p else DidFinish(Finished(p, k - 1))
  }

  /** The texts of the items at positions `a` up to `b`, in order. */
  function TextsBetween(items: seq<Item>, a: int, b: int): seq<string>
    requires b <= |items|
    decreases b - a
  {
    if b <= a || b <= 0 then [] else TextsBetween(items, a, b - 1) + [items[b - 1].text]
  }

  /** `TextsBetween` lists exactly the texts of `items[a..b]`. */
  lemma {:induction false} TextsBetweenLists(items: seq<Item>, a: int, b: int)
    requires 0 <= a <= b <= |items|
    ensures |TextsBetween(items, a, b)| == b - a
    ensures forall j :: 0 <= j < b - a ==> TextsBetween(items, a, b)[j] == items[a + j].text
    decreases b - a
  {
    if a < b {
      TextsBetweenLists(items, a, b - 1);
    }
  }

  /** Uninterrupted, the player reads the list in order: after `k` reports
      from the sentence at the cursor, the next `k` sentences have been
      spoken, one each, and the cursor is `k` sentences on. */
  lemma {:induction false} ReadsInOrder(p: Player, k: nat)
    requires Inv(p) && !p.isResetPlayer && p.currentIndex + k < |p.items|
    ensures var r := Finished(p, k);
      && r.currentIndex == p.currentIndex + k
      && r.spoken == p.spoken + TextsBetween(p.items, p.currentIndex + 1, p.currentIndex + k + 1)
      && r.items == p.items && r.isPlaying == p.isPlaying && !r.isResetPlayer
  {
    var i := p.currentIndex;
    if k > 0 {
      var r := Finished(p, k - 1);
      ReadsInOrder(p, k - 1);
      DidFinishNext(r);
      var before := TextsBetween(p.items, i + 1, i + k);
      var t := p.items[i + k].text;
      assert TextsBetween(p.items, i + 1, i + k + 1) == before + [t];
      assert (p.spoken + before) + [t] == p.spoken + (before + [t]);
    }
  }

  /** One report in the middle of the list: the cursor moves on and the next
      sentence is shown and spoken. */
  lemma DidFinishNext(p: Player)
    requires Inv(p) && !p.isResetPlayer && p.currentIndex + 1 < |p.items|
    ensures DidFinish(p) == p.(currentIndex := p.currentIndex + 1,
                               spoken := p.spoken + [p.items[p.currentIndex + 1].text],
                               shownPage := Some(p.items[p.currentIndex + 1].page), synth := Speaking)
  {
  }


  /** Once the last sentence's report arrives, playing stops and the cursor
      rests at the end of the list. */
  lemma StopsAtEnd(p: Player)
    requires Inv(p) && !p.isResetPlayer && p.currentIndex + 1 >= |p.items|
    ensures var r := DidFinish(p);
      && !r.isPlaying && r.currentIndex == |p.items| && r.spoken == p.spoken
  {
  }
}
