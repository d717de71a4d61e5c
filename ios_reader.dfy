/** `PDFReaderViewController`: the iOS reader's view controller, holding the
    sentence list, the cursor, the two playing flags, the synthesizer and
    the shown page in its own fields.  Each method moves the fields exactly
    as the matching function of `IosPlayer` says; what those moves mean is
    proved there. */
module IosReader {
  import opened MuPdfEngine
  import T = TextUtil
  import P = IosPlayer

  class PDFReaderViewController {
    var items: seq<P.Item>
    var currentIndex: int
    var isPlaying: bool
    var isResetPlayer: bool
    var synth: P.Synth
    /** The texts handed to the synthesizer so far, in order. */
    var spoken: seq<string>
    /** The page `pdfView` shows. */
    var shownPage: Option<nat>
    /** The page count of the document `pdfView` shows, if any. */
    var pageCount: Option<nat>

    function State(): P.Player
      reads this
    {
      P.Player(items, currentIndex, isPlaying, isResetPlayer, synth, spoken, shownPage, pageCount)
    }

    /** The cursor is never negative. */
    ghost predicate Valid()
      reads this
    {
      currentIndex >= 0
    }

    constructor ()
      ensures Valid() && State() == P.Initial
    {
      items, currentIndex := [], 0;
      isPlaying, isResetPlayer := false, false;
      synth := P.Idle;
      spoken, shownPage, pageCount := [], None, None;
    }

    /** `loadDocument`: rebuild the sentence list page by page and collect
        the text to send to the app (sent only when it is non-empty). */
    method LoadDocument(doc: P.Doc) returns (content: string)
      requires Valid()
      modifies this`items, this`shownPage, this`pageCount
      ensures Valid()
      ensures State() == P.LoadDocument(old(State()), doc)
      ensures content == P.DocContent(doc, doc.pageCount)
    {
      pageCount := Some(doc.pageCount);
      items := [];
      content := "";
      var i := 0;
      while i < doc.pageCount
        invariant 0 <= i <= doc.pageCount
        invariant items == P.DocItems(doc, i)
        invariant content == P.DocContent(doc, i)
        invariant pageCount == Some(doc.pageCount) && shownPage == old(shownPage)
      {
        var pageContent := LoadPage(doc, i);
        DocItemsStep(doc, i);
        content := content + pageContent;
        i := i + 1;
      }
      if doc.pageCount > 0 {
        shownPage := Some(0);
      }
    }

    /** One pass of `loadDocument`'s page loop: a page with non-empty text
        gives its text plus a newline and its sentence items. */
    method LoadPage(doc: P.Doc, i: nat) returns (pageContent: string)
      modifies this`items
      ensures items == old(items) + P.PageItems(doc, i)
      ensures pageContent == P.PageContent(doc, i)
    {
      var text := doc.pageText(i);
      pageContent := "";
      if text.Some? && text.value != "" {
        pageContent := text.value + "\n";
        var tokens := doc.sentences(text.value);
        AppendSentences(i, tokens);
        P.TokenItemsAreTaggedSentences(i, tokens, |tokens|);
        assert tokens[..|tokens|] == tokens;
      } else {
        assert P.PageItems(doc, i) == [];
        assert items == old(items) + [];
      }
    }

    /** The tokenizer loop of one page: append every non-empty trimmed
        sentence token, tagged with its page. */
    method AppendSentences(page: nat, tokens: seq<string>)
      modifies this`items
      ensures items == old(items) + P.TokenItems(page, tokens, |tokens|)
    {
      var k := 0;
      while k < |tokens|
        invariant 0 <= k <= |tokens|
        invariant items == old(items) + P.TokenItems(page, tokens, k)
      {
        var s := T.Trim(tokens[k], T.IsWhitespaceOrNewline);
        if s != "" {
          items := items + [P.Item(page, s)];
        }
        k := k + 1;
      }
    }

    /** `jumpToPage`: with a document shown, go to the page at index
        `pageNumber - 1` when that is a page; otherwise do nothing. */
    method JumpToPage(pageNumber: int)
      modifies this`shownPage
      ensures State() == P.JumpToPage(old(State()), pageNumber)
    {
      if pageCount.Some? && pageNumber > 0 && pageNumber <= pageCount.value {
        shownPage := Some(pageNumber - 1);
      }
    }

    method JumpToSavedPosition(index: int)
      requires Valid()
      requires index < |items| ==> index >= 0
      modifies this`currentIndex, this`shownPage
      ensures Valid()
      ensures State() == P.JumpToSavedPosition(old(State()), index)
    {
      if index < |items| {
        currentIndex := index;
        shownPage := Some(items[currentIndex].page);
      }
    }

    method SpeakCurrentItem()
      requires Valid()
      modifies this`isPlaying, this`shownPage, this`spoken, this`synth
      ensures State() == P.SpeakCurrentItem(old(State()))
    {
      if |items| == 0 || currentIndex >= |items| {
        isPlaying := false;
        return;
      }
      var item := items[currentIndex];
      shownPage := Some(item.page);
      spoken := spoken + [item.text];
      synth := P.Speak(synth);
    }

    method TogglePlayPause()
      requires Valid()
      modifies this`isPlaying, this`shownPage, this`spoken, this`synth
      ensures Valid()
      ensures State() == P.TogglePlayPause(old(State()))
    {
      if isPlaying {
        synth := P.Pause(synth);
        isPlaying := false;
      } else {
        if synth == P.Paused {
          synth := P.Speaking;
        } else {
          SpeakCurrentItem();
        }
        isPlaying := true;
      }
    }

    /** `restartReading`: back to the first sentence with the reset flag
        raised and the synthesizer stopped, then show the first item's
        page.  With no items the access to the first item traps (`Threw`). */
    method RestartReading() returns (r: Outcome<()>)
      modifies this`currentIndex, this`isResetPlayer, this`synth, this`shownPage
      ensures Valid()
      ensures r.Threw? <==> |items| == 0
      ensures P.RestartReadingAsWritten(old(State())) == if r.Threw? then Threw else Returned(State())
    {
      currentIndex := 0;
      isResetPlayer := true;
      synth := P.Idle;
      if |items| == 0 {
        return Threw;
      }
      shownPage := Some(items[currentIndex].page);
      return Returned(());
    }

    method RestartPlaying()
      requires Valid()
      modifies this`isResetPlayer, this`isPlaying, this`shownPage, this`spoken, this`synth
      ensures Valid()
      ensures State() == P.RestartPlaying(old(State()))
    {
      isResetPlayer := false;
      isPlaying := true;
      SpeakCurrentItem();
    }

    /** `speechSynthesizer(_:didFinish:)`, after the synthesizer has gone
        idle. */
    method DidFinish()
      requires Valid()
      modifies this`currentIndex, this`isPlaying, this`shownPage, this`spoken, this`synth
      ensures Valid()
      ensures State() == P.DidFinish(old(State()))
    {
      synth := P.Idle;
      if !isResetPlayer {
        currentIndex := P.Min(currentIndex + 1, P.Max(0, |items|));
        if currentIndex < |items| {
          SpeakCurrentItem();
        } else {
          isPlaying := false;
        }
      }
    }
  }

  /** One more page appends that page's items and text. */
  lemma DocItemsStep(doc: P.Doc, i: nat)
    ensures P.DocItems(doc, i + 1) == P.DocItems(doc, i) + P.PageItems(doc, i)
    ensures P.DocContent(doc, i + 1) == P.DocContent(doc, i) + P.PageContent(doc, i)
  {
  }
}
