/** `PdfReaderActivity`'s reading state as an object whose methods update
    its fields in place.  Each method is proved to move the state exactly as
    the function of the same name in `AndroidReader` says; the properties of
    reading are proved there. */
module ReaderActivity {
  import A = AndroidReader
  import T = TextUtil
  import SR = SpeechRates

  class PdfReaderActivity {
    const env: A.Env
    /** The preset labels and rates, in the table's order. */
    const rateKeysList: seq<string>
    const rateList: seq<real>
    var currentPageIndex: int
    var lastTTSPage: int
    var currentPageWords: seq<string>
    var currentWordIndex: nat
    var isReading: bool
    var isPlaying: bool
    /** The page index the document view shows. */
    var displayed: int
    /** The utterances handed to the synthesizer, in order. */
    var spoken: seq<string>
    var currentRateIndex: int

    function State(): A.Reader
      reads this
    {
      A.Reader(currentPageIndex, lastTTSPage, currentPageWords, currentWordIndex, isReading, isPlaying,
               displayed, spoken)
    }

    ghost predicate Valid()
      reads this
    {
      currentPageIndex >= -1 && 0 <= currentRateIndex < |rateKeysList|
    }

    /** The preset lists are the table's keys and values. */
    ghost predicate RatesFromTable() {
      && rateKeysList == SR.Keys(SR.GetRates())
      && |rateList| == |rateKeysList|
      && (forall i :: 0 <= i < |rateList| ==> rateList[i] == SR.GetRates()[i].rate)
    }

    /** `onCreate` through `createUI`, for a document that opened with
        pages: the start position from the intent extras (page numbers from
        1 and sentence indices from 0, or -1 when absent), nothing loaded
        for speech yet (`lastTTSPage` is 0), then the view moved to the
        start page. */
    constructor (e: A.Env, isFromNotes: bool, notePageNumber: int, lastPage: int, lastSIndex: int)
      requires notePageNumber >= -1 && lastPage >= -1 && lastSIndex >= -1
      ensures Valid() && RatesFromTable() && env == e
      ensures State() == A.InitialReader(e, A.StartPosition(isFromNotes, notePageNumber, lastPage, lastSIndex))
      ensures currentRateIndex == 0
    {
      env := e;
      var rates := SR.GetRates();
      rateKeysList := SR.Keys(rates);
      rateList := seq(|rates|, i requires 0 <= i < |rates| => rates[i].rate);
      var st := A.StartPosition(isFromNotes, notePageNumber, lastPage, lastSIndex);
      currentPageIndex := st.pageIndex;
      currentWordIndex := st.wordIndex;
      lastTTSPage := 0;
      currentPageWords := [];
      isReading, isPlaying := false, false;
      displayed := 0;
      spoken := [];
      currentRateIndex := 0;
      new;
      MoveView(st.pageIndex);
    }

    /** `mDocView.displayedViewIndex = i`. */
    method MoveView(i: int)
      requires Valid()
      modifies this`currentPageIndex, this`lastTTSPage, this`currentPageWords, this`currentWordIndex,
               this`isReading, this`isPlaying, this`displayed, this`spoken
      ensures Valid()
      ensures State() == A.MoveView(env, old(State()), i)
      decreases env.pageCount - i, 5
    {
      if 0 <= i < env.pageCount {
        OnMoveToChild(i);
      }
    }

    method OnMoveToChild(i: int)
      requires Valid() && 0 <= i < env.pageCount
      modifies this`currentPageIndex, this`lastTTSPage, this`currentPageWords, this`currentWordIndex,
               this`isReading, this`isPlaying, this`displayed, this`spoken
      ensures Valid()
      ensures State() == A.OnMoveToChild(env, old(State()), i)
      decreases env.pageCount - i, 4
    {
      currentPageIndex := i;
      displayed := i;
      if isPlaying {
        ReadPageText(currentPageIndex, false);
      }
    }

    method ReadPageText(pageNum: int, forceReset: bool)
      requires Valid()
      modifies this`currentPageIndex, this`lastTTSPage, this`currentPageWords, this`currentWordIndex,
               this`isReading, this`isPlaying, this`displayed, this`spoken
      ensures Valid()
      ensures State() == A.ReadPageText(env, old(State()), pageNum, forceReset)
      decreases env.pageCount - currentPageIndex, 3
    {
      LoadPageWords(pageNum);
      if lastTTSPage != currentPageIndex || forceReset {
        currentWordIndex := 0;
        lastTTSPage := currentPageIndex;
      }
      isReading := true;
      SpeakNextWord();
    }

    /** The sentence loop of `readPageText`: clear the list, then append
        every non-empty trimmed segment of the page's text. */
    method LoadPageWords(pageNum: int)
      modifies this`currentPageWords
      ensures currentPageWords == A.PageSentences(env, pageNum)
    {
      var text := env.pageText(pageNum);
      var segments := env.segment(text);
      currentPageWords := [];
      var i := 0;
      while i < |segments|
        invariant 0 <= i <= |segments|
        invariant currentPageWords == T.Sentences(segments[..i], T.IsLowChar)
      {
        var sentence := T.Trim(segments[i], T.IsLowChar);
        if sentence != "" {
          currentPageWords := currentPageWords + [sentence];
        }
        assert segments[..i + 1][..i] == segments[..i];
        i := i + 1;
      }
      assert segments[..|segments|] == segments;
    }

    method SpeakCompleted()
      modifies this`currentPageIndex, this`lastTTSPage, this`currentPageWords, this`currentWordIndex,
               this`isReading, this`isPlaying, this`displayed, this`spoken
      ensures State() == A.SpeakCompleted(old(State()))
    {
      spoken := spoken + [A.CompletionMessage];
      isReading := false;
      isPlaying := false;
      currentWordIndex := 0;
      currentPageWords := [];
    }

    method SpeakNextWord()
      requires Valid()
      modifies this`currentPageIndex, this`lastTTSPage, this`currentPageWords, this`currentWordIndex,
               this`isReading, this`isPlaying, this`displayed, this`spoken
      ensures Valid()
      ensures State() == A.SpeakNextWord(env, old(State()))
      decreases env.pageCount - currentPageIndex, 2
    {
      if !isReading {
        return;
      }
      if currentWordIndex >= |currentPageWords| {
        isReading := false;
        FinishPage();
        return;
      }
      var word := currentPageWords[currentWordIndex];
      spoken := spoken + [word];
      currentWordIndex := currentWordIndex + 1;
    }

    method FinishPage()
      requires Valid()
      modifies this`currentPageIndex, this`lastTTSPage, this`currentPageWords, this`currentWordIndex,
               this`isReading, this`isPlaying, this`displayed, this`spoken
      ensures Valid()
      ensures State() == A.FinishPage(env, old(State()))
      decreases env.pageCount - currentPageIndex, 1
    {
      if currentPageIndex + 1 < env.pageCount {
        TurnPage();
      } else {
        SpeakCompleted();
      }
    }

    method TurnPage()
      requires Valid() && currentPageIndex + 1 < env.pageCount
      modifies this`currentPageIndex, this`lastTTSPage, this`currentPageWords, this`currentWordIndex,
               this`isReading, this`isPlaying, this`displayed, this`spoken
      ensures Valid()
      ensures State() == A.TurnPage(env, old(State()))
      decreases env.pageCount - currentPageIndex, 0
    {
      var nextPage := currentPageIndex + 1;
      MoveView(nextPage);
      ReadPageText(nextPage, false);
    }

    /** The synthesizer finished an utterance. */
    method OnUtteranceDone()
      requires Valid()
      modifies this`currentPageIndex, this`lastTTSPage, this`currentPageWords, this`currentWordIndex,
               this`isReading, this`isPlaying, this`displayed, this`spoken
      ensures Valid()
      ensures State() == A.SpeakNextWord(env, old(State()))
    {
      SpeakNextWord();
    }

    method ChangeMediaStatus()
      requires Valid()
      modifies this`currentPageIndex, this`lastTTSPage, this`currentPageWords, this`currentWordIndex,
               this`isReading, this`isPlaying, this`displayed, this`spoken
      ensures Valid()
      ensures State() == A.ChangeMediaStatus(env, old(State()))
    {
      isPlaying := !isPlaying;
      if isPlaying {
        ReadPageText(currentPageIndex, false);
      }
    }

    method RestartMedia()
      requires Valid()
      modifies this`currentPageIndex, this`lastTTSPage, this`currentPageWords, this`currentWordIndex,
               this`isReading, this`isPlaying, this`displayed, this`spoken
      ensures Valid()
      ensures State() == A.RestartMedia(env, old(State()))
    {
      currentPageIndex := 0;
      MoveView(currentPageIndex);
      isPlaying := true;
      ReadPageText(currentPageIndex, true);
    }

    /** `onActivityResult` for a recognised command: move to the page it
        names, if any; the answer says whether the command was accepted. */
    method OnVoiceCommand(command: string) returns (accepted: bool)
      requires Valid()
      modifies this`currentPageIndex, this`lastTTSPage, this`currentPageWords, this`currentWordIndex,
               this`isReading, this`isPlaying, this`displayed, this`spoken
      ensures Valid()
      ensures accepted == A.VoiceTarget(command, env.pageCount).Some?
      ensures State() == if accepted then A.MoveView(env, old(State()), A.VoiceTarget(command, env.pageCount).value)
                         else old(State())
    {
      var pageNumber := A.ExtractPageNumber(command);
      if pageNumber.None? || pageNumber.value > env.pageCount {
        return false;
      }
      var index := pageNumber.value - 1;
      MoveView(index);
      return true;
    }

    /** `initDefaults`: start on the "1x" preset, or the first one; the
        answer is the label shown and the rate applied. */
    method InitDefaults() returns (speedLabel: string, rate: real)
      requires Valid() && RatesFromTable()
      modifies this`currentRateIndex
      ensures Valid()
      ensures currentRateIndex == A.InitialRateIndex(rateKeysList)
      ensures SR.Entry(speedLabel, rate) == SR.GetRates()[currentRateIndex]
    {
      var index := A.IndexOf(rateKeysList, "1x");
      if index < 0 {
        index := 0;
      }
      currentRateIndex := index;
      speedLabel, rate := rateKeysList[currentRateIndex], rateList[currentRateIndex];
    }

    /** `changeSpeechRateTTS`: the next preset, wrapping around; the answer
        is the speedLabel shown and the rate applied. */
    method ChangeSpeechRate() returns (speedLabel: string, rate: real)
      requires Valid() && RatesFromTable()
      modifies this`currentRateIndex
      ensures Valid()
      ensures currentRateIndex == A.NextRateIndex(old(currentRateIndex), |rateList|)
      ensures SR.Entry(speedLabel, rate) == SR.GetRates()[currentRateIndex]
    {
      currentRateIndex := (currentRateIndex + 1) % |rateList|;
      speedLabel := rateKeysList[currentRateIndex];
      rate := rateList[currentRateIndex];
    }
  }
}
