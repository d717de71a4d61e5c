/** The Android reader activity's decisions and its sentence cursor, as
    functions of values.

    The decisions are expressions of the activity's inputs: where reading
    starts (intent extras), whether an opened document is shown, whether the
    file is read into memory or streamed, which page a voice command names,
    the layout size after a resize, and the speech-rate preset index.

    The sentence cursor is the state `readPageText`, `speakNextWord` and
    `onPDFSpeakCompleted` update.  Each `speak` call is an entry appended to
    the `spoken` log; the synthesizer's "done" callback is a separate event.
    The log records the calls only: that each call flushes the utterance
    still playing, and that pausing stops the synthesizer, are not
    recorded.
    Moving the document view to page `i` (`mDocView.displayedViewIndex = i`)
    is taken to call `onMoveToChild(i)` at once when `i` is a valid page
    index and to do nothing otherwise, so a page turn while playing re-enters
    `readPageText` before the page turn's own call to it. */
module AndroidReader {
  import opened MuPdfEngine
  import T = TextUtil
  import SR = SpeechRates

  // ---------------------------------------------------------------------
  // Start position (setDocumentUri)

  datatype Start = Start(pageIndex: int, wordIndex: int, highlight: bool)

  /** Where reading starts: a note's page, else a saved position, else the
      first sentence of the first page without highlight. */
  function StartPosition(isFromNotes: bool, notePageNumber: int, lastPage: int, lastSIndex: int): Start {
    if isFromNotes && notePageNumber != -1 then Start(notePageNumber - 1, 0, false)
    else if lastPage != -1 && lastPage != 1 && lastSIndex != -1 && lastSIndex != 0 then
      Start(lastPage - 1, lastSIndex, true)
    else Start(0, 0, false)
  }

  lemma StartPositionCases(isFromNotes: bool, notePageNumber: int, lastPage: int, lastSIndex: int)
    ensures var st := StartPosition(isFromNotes, notePageNumber, lastPage, lastSIndex);
      && (isFromNotes && notePageNumber != -1 ==>
            st.pageIndex == notePageNumber - 1 && st.wordIndex == 0 && !st.highlight)
      && (!(isFromNotes && notePageNumber != -1) ==>
            (st.highlight <==> lastPage !in {-1, 1} && lastSIndex !in {-1, 0})
            && (st.highlight ==> st.pageIndex == lastPage - 1 && st.wordIndex == lastSIndex)
            && (!st.highlight ==> st.pageIndex == 0 && st.wordIndex == 0))
  {
  }

  // ---------------------------------------------------------------------
  // Opening (setDocumentUri after openCore)

  /** What `openCore` produced: it threw, it returned no core (the engine
      refused the file), or it returned a core. */
  datatype Opened = OpenThrew | NoCore | Core(needsPassword: bool, pageCount: nat)

  datatype OpenOutcome = CannotOpenWithReason | PasswordRequested | CannotOpen | ShowDocument

  /** The end of `setDocumentUri`: an exception shows the reason; a core
      that needs a password asks for it; a core with no pages is dropped;
      without a core the "cannot open" alert is shown; otherwise the reader
      UI is created.  A session that already has a core goes straight to the
      UI. */
  function OpenOutcomeOf(hadCore: bool, o: Opened): OpenOutcome {
    if hadCore then ShowDocument
    else if o.OpenThrew? then CannotOpenWithReason
    else if o.Core? && o.needsPassword then PasswordRequested
    else if o.NoCore? || o.pageCount == 0 then CannotOpen
    else ShowDocument
  }

  lemma OpenOutcomeCases(hadCore: bool, o: Opened)
    ensures OpenOutcomeOf(hadCore, o) == ShowDocument <==>
      hadCore || (o.Core? && !o.needsPassword && o.pageCount > 0)
    ensures !hadCore && o.Core? && !o.needsPassword && o.pageCount == 0 ==> OpenOutcomeOf(hadCore, o) == CannotOpen
    ensures !hadCore && o.Core? && o.needsPassword ==> OpenOutcomeOf(hadCore, o) == PasswordRequested
  {
  }

  // ---------------------------------------------------------------------
  // Memory buffer or stream (openCore)

  const BufferLimit := 8 * 1024 * 1024

  /** The size the content resolver reported: unknown (-1) when it gave
      none, and an empty size is treated as unknown too. */
  function ReportedSize(queried: Option<int>): (size: int)
    ensures queried.Some? && queried.value != 0 ==> size == queried.value
    ensures queried.None? || queried.value == 0 ==> size == -1
  {
    var s := queried.GetOr(-1);
    if s == 0 then -1 else s
  }

  /** What one `InputStream.read(buf)` into a buffer of length `len` may
      return on a stream holding `data`: 0 for an empty buffer, -1 at the
      end of the stream, otherwise between 1 and the bytes available. */
  predicate ReadResult(len: int, data: seq<bv8>, got: int) {
    if len == 0 then got == 0
    else if |data| == 0 then got == -1
    else 1 <= got <= len && got <= |data|
  }

  datatype Source = FromBuffer(bytes: seq<bv8>) | FromStream

  /** `openCore`'s choice as written.  `got` is what the bulk read returned
      (when a read is made) and `outOfMemory` whether allocating the buffer
      failed.  The end-of-stream probe after the read succeeds exactly when
      the read consumed everything. */
  function OpenCoreSource(size: int, data: seq<bv8>, got: int, outOfMemory: bool): Source
    requires size <= BufferLimit ==> ReadResult(if size < 0 then BufferLimit else size, data, got)
  {
    if size > BufferLimit || outOfMemory then FromStream
    else if size < 0 then
      var atEOF := got < 0 || got >= |data|;
      if got < 0 || (got == BufferLimit && !atEOF) then FromStream else FromBuffer(data[..got])
    else if got < 0 || got < size then FromStream
    else FromBuffer(data[..got])
  }

  /** The buffer decision in both cases, and that a kept buffer holds
      exactly the bytes read. */
  lemma OpenCoreSourceCases(size: int, data: seq<bv8>, got: int, outOfMemory: bool)
    requires size <= BufferLimit ==> ReadResult(if size < 0 then BufferLimit else size, data, got)
    ensures var src := OpenCoreSource(size, data, got, outOfMemory);
      && (src.FromBuffer? ==> 0 <= got <= |data| && src.bytes == data[..got] && |src.bytes| == got)
      && (size < 0 ==> (src.FromBuffer? <==> !outOfMemory && got >= 0 && !(got == BufferLimit && got < |data|)))
      && (size >= 0 ==> (src.FromBuffer? <==> !outOfMemory && size <= BufferLimit && got >= size))
      && (0 < size <= BufferLimit && src.FromBuffer? ==> src.bytes == data[..size])
  {
  }

  /** As written, a short read of a stream of unknown size (fewer bytes
      than the buffer holds, with more still to come) keeps the partial
      buffer as if it were the whole file. */
  lemma OpenCoreKeepsShortRead()
    ensures var data := seq(10, i => 0x25 as bv8);
      && ReadResult(BufferLimit, data, 4)
      && OpenCoreSource(-1, data, 4, false) == FromBuffer(data[..4])
      && data[..4] != data
  {
    var data := seq(10, i => 0x25 as bv8);
    assert |data[..4]| != |data|;
  }

  /** The choice as evidently intended: a read of unknown size is kept only
      when it reached the end of the stream, so no partial data is kept. */
  function OpenCoreSourceChecked(size: int, data: seq<bv8>, got: int, outOfMemory: bool): Source
    requires size <= BufferLimit ==> ReadResult(if size < 0 then BufferLimit else size, data, got)
  {
    if size > BufferLimit || outOfMemory then FromStream
    else if size < 0 then
      var atEOF := got < 0 || got >= |data|;
      if got < 0 || !atEOF then FromStream else FromBuffer(data[..got])
    else if got < 0 || got < size then FromStream
    else FromBuffer(data[..got])
  }

  /** With the check, a kept buffer of unknown size is the whole stream, and
      one of known size is the reported number of bytes; a stream that fits
      is still read into memory when the read returns it whole. */
  lemma OpenCoreSourceCheckedComplete(size: int, data: seq<bv8>, got: int, outOfMemory: bool)
    requires size <= BufferLimit ==> ReadResult(if size < 0 then BufferLimit else size, data, got)
    ensures var src := OpenCoreSourceChecked(size, data, got, outOfMemory);
      && (src.FromBuffer? && size < 0 ==> src.bytes == data)
      && (src.FromBuffer? && size >= 0 ==> src.bytes == data[..size])
      && (size < 0 && !outOfMemory && 0 < |data| <= BufferLimit && got == |data| ==> src == FromBuffer(data))
  {
    var src := OpenCoreSourceChecked(size, data, got, outOfMemory);
    if src.FromBuffer? && size < 0 {
      assert data[..got] == data;
    }
  }

  // ---------------------------------------------------------------------
  // Voice command (extractPageNumber, onActivityResult)

  const IntMax := 0x7fff_ffff

  function LowerAscii(c: char): char {
    if 'A' <= c <= 'Z' then (c as int - 'A' as int + 'a' as int) as char else c
  }

  /** A Unicode separator (general category Z): the space separators, the
      line separator and the paragraph separator. */
  predicate IsSeparator(c: char) {
    || c == ' ' || c == '\U{00A0}' || c == '\U{1680}'
    || ('\U{2000}' <= c <= '\U{200A}')
    || c == '\U{2028}' || c == '\U{2029}' || c == '\U{202F}' || c == '\U{205F}' || c == '\U{3000}'
  }

  /** `\s` of Android's ICU-based regular expressions: tab, newline, form
      feed, carriage return or a Unicode separator (not the vertical tab). */
  predicate IsRegexSpace(c: char) {
    c == '\t' || c == '\n' || c == '\U{000C}' || c == '\r' || IsSeparator(c)
  }

  /** The length of the run of characters satisfying `p` from index `j`. */
  function RunLength(s: string, j: nat, p: char -> bool): (n: nat)
    requires j <= |s|
    ensures j + n <= |s|
    ensures forall k :: j <= k < j + n ==> p(s[k])
    ensures j + n < |s| ==> !p(s[j + n])
    decreases |s| - j
  {
    if j == |s| || !p(s[j]) then 0 else 1 + RunLength(s, j + 1, p)
  }

  /** "page" in any letter case at index `i`. */
  predicate PageWordAt(s: string, i: nat) {
    i + 4 <= |s| && LowerAscii(s[i]) == 'p' && LowerAscii(s[i + 1]) == 'a'
    && LowerAscii(s[i + 2]) == 'g' && LowerAscii(s[i + 3]) == 'e'
  }

  /** Where the digits of a match at `i` start. */
  function DigitsStart(s: string, i: nat): nat
    requires PageWordAt(s, i)
  {
    i + 4 + RunLength(s, i + 4, IsRegexSpace)
  }

  /** `page\s+(\d+)` matches at `i`, case-insensitively. */
  predicate MatchesAt(s: string, i: nat) {
    && PageWordAt(s, i)
    && RunLength(s, i + 4, IsRegexSpace) > 0
    && RunLength(s, DigitsStart(s, i), T.IsDigit) > 0
  }

  /** `Regex.find` from index `i`: the leftmost match. */
  function FirstMatch(s: string, i: nat): (r: Option<nat>)
    requires i <= |s|
    ensures r.Some? ==> i <= r.value < |s| && MatchesAt(s, r.value)
    ensures forall k :: i <= k < (if r.Some? then r.value else |s|) ==> !MatchesAt(s, k)
    decreases |s| - i
  {
    if i == |s| then None
    else if MatchesAt(s, i) then Some(i)
    else FirstMatch(s, i + 1)
  }

  /** The digits captured by the match at `i` (greedy, so the whole run). */
  function CapturedDigits(s: string, i: nat): (d: string)
    requires MatchesAt(s, i)
    ensures |d| > 0 && forall k :: 0 <= k < |d| ==> T.IsDigit(d[k])
  {
    var j := DigitsStart(s, i);
    s[j..j + RunLength(s, j, T.IsDigit)]
  }

  /** `extractPageNumber`: the number after the first "page" and
      whitespace, or `None` when there is none or it overflows an `Int`
      (`toIntOrNull`). */
  function ExtractPageNumber(command: string): (r: Option<int>)
    ensures r.Some? ==> 0 <= r.value <= IntMax
  {
    match FirstMatch(command, 0)
    case None => None
    case Some(i) =>
      var n := T.DigitsValue(CapturedDigits(command, i));
      if n <= IntMax then Some(n) else None
  }

  /** Saying "page" followed by a number gives that number back, whatever
      the letter case of "page" and however much whitespace follows it. */
  lemma ExtractPageNumberRoundTrip(word: string, gap: string, n: nat)
    requires |word| == 4 && LowerAscii(word[0]) == 'p' && LowerAscii(word[1]) == 'a'
    requires LowerAscii(word[2]) == 'g' && LowerAscii(word[3]) == 'e'
    requires |gap| > 0 && forall k :: 0 <= k < |gap| ==> IsRegexSpace(gap[k])
    requires n <= IntMax
    ensures ExtractPageNumber(word + gap + T.DecimalString(n)) == Some(n)
  {
    var d := T.DecimalString(n);
    var s := word + (gap + d);
    assert word + gap + d == s;
    PageWordThenRest(word, gap + d);
    SpaceRun(s, 4, gap, d);
    assert s[4 + |gap|..] == d;
    MatchAtStart(s, |gap|, d);
    T.DecimalStringRoundTrip(n);
  }

  lemma PageWordThenRest(word: string, rest: string)
    requires |word| == 4 && LowerAscii(word[0]) == 'p' && LowerAscii(word[1]) == 'a'
    requires LowerAscii(word[2]) == 'g' && LowerAscii(word[3]) == 'e'
    ensures PageWordAt(word + rest, 0) && (word + rest)[4..] == rest
  {
  }

  /** "page", a run of `g` whitespace characters and then only the digits
      `d`: the match is at 0 and captures `d`. */
  lemma MatchAtStart(s: string, g: nat, d: string)
    requires PageWordAt(s, 0) && 0 < g && 4 + g <= |s| && RunLength(s, 4, IsRegexSpace) == g
    requires s[4 + g..] == d && |d| > 0 && forall k :: 0 <= k < |d| ==> T.IsDigit(d[k])
    ensures FirstMatch(s, 0) == Some(0) && CapturedDigits(s, 0) == d
  {
    DigitsToEnd(s, 4 + g, d);
  }

  lemma {:induction false} SpaceRun(s: string, j: nat, gap: string, d: string)
    requires j <= |s| && s[j..] == gap + d
    requires forall k :: 0 <= k < |gap| ==> IsRegexSpace(gap[k])
    requires |d| > 0 && T.IsDigit(d[0])
    ensures RunLength(s, j, IsRegexSpace) == |gap|
    decreases |gap|
  {
    assert s[j] == (gap + d)[0];
    if |gap| > 0 {
      assert s[j + 1..] == gap[1..] + d;
      SpaceRun(s, j + 1, gap[1..], d);
    }
  }

  lemma DigitsToEnd(s: string, j: nat, d: string)
    requires j <= |s| && s[j..] == d && forall k :: 0 <= k < |d| ==> T.IsDigit(d[k])
    ensures RunLength(s, j, T.IsDigit) == |d| && s[j..j + |d|] == d
  {
    assert forall k :: j <= k < |s| ==> s[k] == d[k - j];
    DigitRunToEnd(s, j);
  }

  lemma {:induction false} DigitRunToEnd(s: string, j: nat)
    requires j <= |s| && forall k :: j <= k < |s| ==> T.IsDigit(s[k])
    ensures RunLength(s, j, T.IsDigit) == |s| - j
    decreases |s| - j
  {
    if j < |s| {
      DigitRunToEnd(s, j + 1);
    }
  }

  /** A command without the word "page" names no page. */
  lemma NoPageWordNoNumber(command: string)
    requires forall i :: 0 <= i < |command| ==> !PageWordAt(command, i)
    ensures ExtractPageNumber(command) == None
  {
  }

  /** `onActivityResult`: the page index a recognised command moves to.
      Only the upper bound is checked, so "page 0" asks for index -1. */
  function VoiceTarget(command: string, pageCount: nat): Option<int> {
    match ExtractPageNumber(command)
    case None => None
    case Some(n) => if n <= pageCount then Some(n - 1) else None
  }

  lemma VoiceTargetBounds(command: string, pageCount: nat)
    ensures var t := VoiceTarget(command, pageCount);
      && (t.Some? <==> ExtractPageNumber(command).Some? && ExtractPageNumber(command).value <= pageCount)
      && (t.Some? ==> t.value == ExtractPageNumber(command).value - 1 && -1 <= t.value < pageCount)
      && (t.Some? && t.value == -1 <==> ExtractPageNumber(command) == Some(0))
  {
  }

  // ---------------------------------------------------------------------
  // Layout after a resize (onSizeChanged)

  /** Kotlin `Int` arithmetic: two's-complement wrap-around to 32 bits. */
  function Wrap32(x: int): (r: int)
    ensures -0x8000_0000 <= r <= IntMax
    ensures -0x8000_0000 <= x <= IntMax ==> r == x
    ensures (x - r) % 0x1_0000_0000 == 0
  {
    var m := x % 0x1_0000_0000;
    if m > IntMax then m - 0x1_0000_0000 else m
  }

  /** Kotlin's `/` on `Int` by a positive divisor: rounds toward zero. */
  function TruncDiv(a: int, b: int): (q: int)
    requires b > 0
    ensures a >= 0 ==> q * b <= a < q * b + b
    ensures a < 0 ==> q * b - b < a <= q * b
  {
    if a >= 0 || a % b == 0 then a / b else a / b + 1
  }

  /** `onSizeChanged` on a reflowable document: a pixel size converted to
      points, `w * 72 / dpi`; a fixed-layout document keeps its layout. */
  function ResizedLayout(reflowable: bool, w: int, h: int, dpi: int): (l: Option<(int, int)>)
    requires dpi > 0
    ensures l.Some? <==> reflowable
  {
    if reflowable then Some((TruncDiv(Wrap32(w * 72), dpi), TruncDiv(Wrap32(h * 72), dpi)))
    else None
  }

  /** For any realistic size (no overflow) the layout is the size in
      points, rounded down. */
  lemma ResizedLayoutInPoints(w: int, h: int, dpi: int)
    requires dpi > 0 && 0 <= w <= 29_826_161 && 0 <= h <= 29_826_161
    ensures var l := ResizedLayout(true, w, h, dpi).value;
      && l.0 * dpi <= w * 72 < (l.0 + 1) * dpi
      && l.1 * dpi <= h * 72 < (l.1 + 1) * dpi
  {
  }

  // ---------------------------------------------------------------------
  // Speech-rate presets (initDefaults, changeSpeechRateTTS)

  /** `List.indexOf`: the first index holding `k`, or -1. */
  function IndexOf(keys: seq<string>, k: string): (i: int)
    ensures -1 <= i < |keys|
    ensures i >= 0 ==> keys[i] == k && forall j :: 0 <= j < i ==> keys[j] != k
    ensures i == -1 <==> k !in keys
  {
    if |keys| == 0 then -1
    else if keys[0] == k then 0
    else
      var i := IndexOf(keys[1..], k);
      assert keys == [keys[0]] + keys[1..];
      if i == -1 then -1 else i + 1
  }

  /** `initDefaults`: the index of the "1x" preset, or the first preset. */
  function InitialRateIndex(keys: seq<string>): (i: int)
    ensures "1x" in keys ==> 0 <= i < |keys| && keys[i] == "1x"
    ensures "1x" !in keys ==> i == 0
  {
    var i := IndexOf(keys, "1x");
    if i < 0 then 0 else i
  }

  /** `changeSpeechRateTTS`: the next preset, wrapping around. */
  function NextRateIndex(i: int, n: int): (j: int)
    requires n > 0 && i >= 0
    ensures 0 <= j < n
    ensures i + 1 < n ==> j == i + 1
    ensures i + 1 == n ==> j == 0
  {
    (i + 1) % n
  }

  /** The index after `k` presses. */
  function RateIndexAfter(i: int, n: int, k: nat): (r: int)
    requires 0 <= i < n
    ensures 0 <= r < n
  {
    if k == 0 then i else NextRateIndex(RateIndexAfter(i, n, k - 1), n)
  }

  /** Within one round of `n` presses the index moves `k` presets on,
      wrapping past the last preset to the first. */
  lemma {:induction false} RateIndexWithinRound(i: int, n: int, k: nat)
    requires 0 <= i < n && k <= n
    ensures RateIndexAfter(i, n, k) == if i + k < n then i + k else i + k - n
  {
    if k > 0 {
      RateIndexWithinRound(i, n, k - 1);
    }
  }

  /** `n` presses come back to the same preset. */
  lemma {:induction false} RateIndexPeriodic(i: int, n: int, k: nat)
    requires 0 <= i < n
    ensures RateIndexAfter(i, n, k + n) == RateIndexAfter(i, n, k)
  {
    if k == 0 {
      RateIndexWithinRound(i, n, n);
    } else {
      RateIndexPeriodic(i, n, k - 1);
    }
  }

  /** Every preset is reached from any other in fewer than `n` presses. */
  lemma RateIndexReaches(i: int, n: int, j: int)
    requires 0 <= i < n && 0 <= j < n
    ensures RateIndexAfter(i, n, if j >= i then j - i else j - i + n) == j
  {
    RateIndexWithinRound(i, n, if j >= i then j - i else j - i + n);
  }

  /** The presets the activity cycles through, and the one it starts on. */
  lemma RatePresetsStart()
    ensures SR.Keys(SR.GetRates()) == ["0.75x", "1x", "1.5x", "2x"]
    ensures InitialRateIndex(SR.Keys(SR.GetRates())) == 1
    ensures SR.GetRates()[1] == SR.Entry("1x", 1.0)
  {
  }

  // ---------------------------------------------------------------------
  // Sentence cursor (readPageText, speakNextWord, onPDFSpeakCompleted)

  /** What reading needs from the rest of the activity: the page count,
      each page's text (`getPageText`), and the sentence segmentation of a
      text (the pieces between consecutive `BreakIterator` boundaries). */
  datatype Env = Env(pageCount: nat, pageText: int -> string, segment: string -> seq<string>)

  /** The sentences `readPageText` keeps for a page. */
  function PageSentences(env: Env, page: int): seq<string> {
    T.Sentences(env.segment(env.pageText(page)), T.IsLowChar)
  }

  /** The reading state of the activity: the current page, the page whose
      sentences were last loaded for speech, the sentence list and index,
      the two flags, the page the document view shows, and the utterances
      handed to the synthesizer so far. */
  datatype Reader = Reader(
    currentPageIndex: int,
    lastTTSPage: int,
    words: seq<string>,
    wordIndex: nat,
    isReading: bool,
    isPlaying: bool,
    displayed: int,
    spoken: seq<string>)

  const CompletionMessage := "PDF reading completed!"

  /** `onPDFSpeakCompleted`: announce the end and reset the cursor. */
  function SpeakCompleted(r: Reader): Reader {
    r.(spoken := r.spoken + [CompletionMessage], isReading := false, isPlaying := false,
       wordIndex := 0, words := [])
  }

  /** `mDocView.displayedViewIndex = i`: a valid page index is shown and
      reported to `onMoveToChild`; any other index is ignored. */
  function MoveView(env: Env, r: Reader, i: int): (r': Reader)
    ensures 0 <= i < env.pageCount ==> r'.currentPageIndex >= i
    ensures !(0 <= i < env.pageCount) ==> r' == r
    decreases env.pageCount - i, 5
  {
    if 0 <= i < env.pageCount then OnMoveToChild(env, r, i) else r
  }

  /** `onMoveToChild(i)`: the view now shows page `i`, which becomes the
      current page; while playing, that page is read. */
  function OnMoveToChild(env: Env, r: Reader, i: int): (r': Reader)
    requires 0 <= i < env.pageCount
    ensures r'.currentPageIndex >= i
    decreases env.pageCount - i, 4
  {
    var r1 := r.(currentPageIndex := i, displayed := i);
    if r1.isPlaying then ReadPageText(env, r1, i, false) else r1
  }

  /** `readPageText(pageNum, forceReset)`: load the page's sentences; the
      index goes back to the first sentence only when the current page is
      not the one last loaded for speech, or when forced; then speak. */
  function ReadPageText(env: Env, r: Reader, pageNum: int, forceReset: bool): (r': Reader)
    requires r.currentPageIndex >= -1
    ensures r'.currentPageIndex >= r.currentPageIndex
    decreases env.pageCount - r.currentPageIndex, 3
  {
    var r1 := r.(words := PageSentences(env, pageNum));
    var r2 := if r.lastTTSPage != r.currentPageIndex || forceReset
              then r1.(wordIndex := 0, lastTTSPage := r.currentPageIndex)
              else r1;
    SpeakNextWord(env, r2.(isReading := true))
  }

  /** `speakNextWord`: speak the sentence at the index and advance it; past
      the last sentence, stop reading this page and finish it. */
  function SpeakNextWord(env: Env, r: Reader): (r': Reader)
    requires r.currentPageIndex >= -1
    ensures r'.currentPageIndex >= r.currentPageIndex
    decreases env.pageCount - r.currentPageIndex, 2
  {
    if !r.isReading then r
    else if r.wordIndex >= |r.words| then FinishPage(env, r.(isReading := false))
    else r.(spoken := r.spoken + [r.words[r.wordIndex]], wordIndex := r.wordIndex + 1)
  }

  /** The end of a page: turn to the next page if there is one, or else
      complete. */
  function FinishPage(env: Env, r: Reader): (r': Reader)
    requires r.currentPageIndex >= -1
    ensures r'.currentPageIndex >= r.currentPageIndex
    decreases env.pageCount - r.currentPageIndex, 1
  {
    if r.currentPageIndex + 1 < env.pageCount then TurnPage(env, r) else SpeakCompleted(r)
  }

  /** Show the page after the current one, then read it. */
  function TurnPage(env: Env, r: Reader): (r': Reader)
    requires -1 <= r.currentPageIndex && r.currentPageIndex + 1 < env.pageCount
    ensures r'.currentPageIndex > r.currentPageIndex
    decreases env.pageCount - r.currentPageIndex, 0
  {
    var next := r.currentPageIndex + 1;
    ReadPageText(env, MoveView(env, r, next), next, false)
  }

  /** The play/pause button (`changeMediaStatus`): pausing only stops the
      synthesizer; playing reads the current page. */
  function ChangeMediaStatus(env: Env, r: Reader): (r': Reader)
    requires r.currentPageIndex >= -1
    ensures r.isPlaying ==> r' == r.(isPlaying := false)
    ensures r'.currentPageIndex >= r.currentPageIndex
  {
    var r1 := r.(isPlaying := !r.isPlaying);
    if r1.isPlaying then ReadPageText(env, r1, r1.currentPageIndex, false) else r1
  }

  /** The restart button (`restartMedia`): back to the first page (which the
      view reports, reading it if already playing), then play it from its
      first sentence. */
  function RestartMedia(env: Env, r: Reader): (r': Reader)
    ensures r'.currentPageIndex >= 0
  {
    var r1 := MoveView(env, r.(currentPageIndex := 0), 0);
    ReadPageText(env, r1.(isPlaying := true), r1.currentPageIndex, true)
  }

  /** The restart as evidently intended: the synthesizer's flag is down
      while the view moves to the first page, so only the restart's own
      forced `readPageText` reads it. */
  function RestartMediaChecked(env: Env, r: Reader): (r': Reader)
    ensures r'.currentPageIndex >= 0
  {
    var r1 := MoveView(env, r.(currentPageIndex := 0, isPlaying := false), 0);
    ReadPageText(env, r1.(isPlaying := true), r1.currentPageIndex, true)
  }

  /** The state right after the UI is built: the start position applied,
      nothing loaded for speech (`lastTTSPage` starts at 0), and the view
      moved to the start page. */
  function InitialReader(env: Env, st: Start): (r': Reader)
    requires st.pageIndex >= -1 && st.wordIndex >= 0
    ensures r'.currentPageIndex == st.pageIndex && r'.wordIndex == st.wordIndex && r'.lastTTSPage == 0
    ensures !r'.isPlaying && !r'.isReading && r'.words == [] && r'.spoken == []
    ensures r'.displayed == if 0 <= st.pageIndex < env.pageCount then st.pageIndex else 0
  {
    var r := Reader(st.pageIndex, 0, [], st.wordIndex, false, false, 0, []);
    assert 0 <= st.pageIndex < env.pageCount ==>
      OnMoveToChild(env, r, st.pageIndex) == r.(currentPageIndex := st.pageIndex, displayed := st.pageIndex);
    MoveView(env, r, st.pageIndex)
  }

  /** While a sentence is left, one call speaks exactly that sentence and
      moves the index past it; nothing else changes. */
  lemma SpeakNextWordSpeaks(env: Env, r: Reader)
    requires r.currentPageIndex >= -1 && r.isReading && r.wordIndex < |r.words|
    ensures var r' := SpeakNextWord(env, r);
      && r'.spoken == r.spoken + [r.words[r.wordIndex]]
      && r'.wordIndex == r.wordIndex + 1
      && r'.(spoken := r.spoken, wordIndex := r.wordIndex) == r
  {
  }

  /** Past the last sentence of the last page, reading completes: the end
      is announced, both flags drop and the cursor is emptied. */
  lemma SpeakNextWordCompletes(env: Env, r: Reader)
    requires r.currentPageIndex >= -1 && r.isReading && r.wordIndex >= |r.words|
    requires r.currentPageIndex + 1 >= env.pageCount
    ensures var r' := SpeakNextWord(env, r);
      && r'.spoken == r.spoken + [CompletionMessage]
      && !r'.isReading && !r'.isPlaying && r'.wordIndex == 0 && r'.words == []
      && r'.currentPageIndex == r.currentPageIndex
  {
  }

  /** A call while not reading (after a pause or the end) does nothing. */
  lemma SpeakNextWordIdle(env: Env, r: Reader)
    requires r.currentPageIndex >= -1 && !r.isReading
    ensures SpeakNextWord(env, r) == r
  {
  }

  /** The reset rule of `readPageText`, for a page with sentences: when the
      page is the one last loaded and no reset is forced, speaking resumes
      at the stored index (if it is in range); otherwise it starts at the
      first sentence and the page is recorded as loaded. */
  lemma ReadPageTextResetRule(env: Env, r: Reader, pageNum: int, forceReset: bool)
    requires r.currentPageIndex >= -1
    ensures var s := PageSentences(env, pageNum);
      var r' := ReadPageText(env, r, pageNum, forceReset);
      && (r.lastTTSPage == r.currentPageIndex && !forceReset && r.wordIndex < |s| ==>
            r'.spoken == r.spoken + [s[r.wordIndex]] && r'.wordIndex == r.wordIndex + 1
            && r'.words == s && r'.isReading)
      && ((r.lastTTSPage != r.currentPageIndex || forceReset) && |s| > 0 ==>
            r'.spoken == r.spoken + [s[0]] && r'.wordIndex == 1 && r'.words == s
            && r'.lastTTSPage == r.currentPageIndex && r'.isReading)
  {
  }

  /** A restart while paused shows the first page and speaks its first
      sentence: the view's report does not read, and the forced read starts
      the page over. */
  lemma RestartMediaWhilePaused(env: Env, r: Reader)
    requires !r.isPlaying && 0 < env.pageCount && |PageSentences(env, 0)| > 0
    ensures var s := PageSentences(env, 0);
      var r' := RestartMedia(env, r);
      && r'.currentPageIndex == 0 && r'.displayed == 0
      && r'.words == s && r'.wordIndex == 1 && r'.lastTTSPage == 0
      && r'.spoken == r.spoken + [s[0]]
      && r'.isPlaying && r'.isReading
  {
    var r0 := r.(currentPageIndex := 0);
    assert OnMoveToChild(env, r0, 0) == r0.(displayed := 0);
    ReadPageTextResetRule(env, r0.(displayed := 0).(isPlaying := true), 0, true);
  }

  /** A restart while playing, pressed during the last sentence of the first
      page of a longer document: the view's report of page 0 reads it with
      the old index, finds it finished and turns the page, so the restart
      ends past the first page. */
  lemma RestartMediaSkipsFirstPage(env: Env, r: Reader)
    requires r.isPlaying && r.lastTTSPage == 0 && r.wordIndex >= |PageSentences(env, 0)|
    requires 2 <= env.pageCount
    ensures RestartMedia(env, r).currentPageIndex >= 1
  {
    var r0 := r.(currentPageIndex := 0);
    var r1 := r0.(displayed := 0);
    var w := r1.(words := PageSentences(env, 0), isReading := true);
    assert SpeakNextWord(env, w) == TurnPage(env, w.(isReading := false));
    assert ReadPageText(env, r1, 0, false) == SpeakNextWord(env, w);
    assert MoveView(env, r0, 0) == ReadPageText(env, r1, 0, false);
  }

  /** The corrected restart starts over from the first sentence of the first
      page, whatever the synthesizer was doing, and agrees with the restart
      as written whenever the synthesizer was paused. */
  lemma RestartMediaCheckedStartsOver(env: Env, r: Reader)
    requires 0 < env.pageCount && |PageSentences(env, 0)| > 0
    ensures var s := PageSentences(env, 0);
      var r' := RestartMediaChecked(env, r);
      && r'.currentPageIndex == 0 && r'.displayed == 0
      && r'.words == s && r'.wordIndex == 1 && r'.lastTTSPage == 0
      && r'.spoken == r.spoken + [s[0]]
      && r'.isPlaying && r'.isReading
    ensures !r.isPlaying ==> RestartMediaChecked(env, r) == RestartMedia(env, r)
  {
    var r0 := r.(currentPageIndex := 0, isPlaying := false);
    assert OnMoveToChild(env, r0, 0) == r0.(displayed := 0);
    ReadPageTextResetRule(env, r0.(displayed := 0).(isPlaying := true), 0, true);
    if !r.isPlaying {
      assert r0 == r.(currentPageIndex := 0);
    }
  }

  /** Turning the page while playing: the view's report of the new page
      reads it first, from its first sentence, and then the page turn's own
      `readPageText` finds the page already loaded and hands the next
      sentence to the synthesizer.  The two `speak` calls are issued back to
      back; the log records both calls, not what is heard (the second is
      issued with `QUEUE_FLUSH` and so cuts the first off). */
  lemma PageTurnWhilePlaying(env: Env, r: Reader)
    requires r.currentPageIndex >= -1 && r.isReading && r.isPlaying && r.wordIndex >= |r.words|
    requires r.currentPageIndex + 1 < env.pageCount && r.lastTTSPage != r.currentPageIndex + 1
    requires |PageSentences(env, r.currentPageIndex + 1)| >= 2
    ensures var s := PageSentences(env, r.currentPageIndex + 1);
      var r' := SpeakNextWord(env, r);
      && r'.spoken == r.spoken + [s[0], s[1]]
      && r'.wordIndex == 2 && r'.words == s
      && r'.currentPageIndex == r.currentPageIndex + 1 && r'.displayed == r.currentPageIndex + 1
      && r'.lastTTSPage == r.currentPageIndex + 1 && r'.isReading && r'.isPlaying
  {
    var p := r.currentPageIndex + 1;
    var s := PageSentences(env, p);
    var r1 := r.(isReading := false);
    var moved := r1.(currentPageIndex := p, displayed := p);
    var nested := ReadPageText(env, moved, p, false);
    assert OnMoveToChild(env, r1, p) == nested;
    assert MoveView(env, r1, p) == nested;
    assert TurnPage(env, r1) == ReadPageText(env, nested, p, false);
    assert SpeakNextWord(env, r) == FinishPage(env, r1) == TurnPage(env, r1);
    ReadPageTextResetRule(env, moved, p, false);
    ReadPageTextResetRule(env, nested, p, false);
  }

  // ---------------------------------------------------------------------
  // Resuming at a saved sentence

  /** As written, a resumed session discards its saved sentence: the start
      page is never the page last loaded for speech (`lastTTSPage` starts at
      0 and a resumed page index is never 0), so the first play starts the
      page from its first sentence. */
  lemma ResumeIndexDiscarded(env: Env, lastPage: int, lastSIndex: int)
    requires 2 <= lastPage <= env.pageCount && lastSIndex >= 1
    requires lastSIndex < |PageSentences(env, lastPage - 1)|
    ensures var st := StartPosition(false, -1, lastPage, lastSIndex);
      var r' := ChangeMediaStatus(env, InitialReader(env, st));
      && st.wordIndex == lastSIndex
      && r'.spoken == [PageSentences(env, lastPage - 1)[0]]
      && r'.wordIndex == 1
  {
    var st := StartPosition(false, -1, lastPage, lastSIndex);
    var r := Reader(lastPage - 1, 0, [], lastSIndex, false, false, 0, []);
    var r0 := r.(displayed := lastPage - 1);
    assert OnMoveToChild(env, r, lastPage - 1) == r0;
    assert InitialReader(env, st) == r0;
    assert ChangeMediaStatus(env, r0) == ReadPageText(env, r0.(isPlaying := true), lastPage - 1, false);
    ReadPageTextResetRule(env, r0.(isPlaying := true), lastPage - 1, false);
  }

  /** The evidently intended start: a resumed page counts as already loaded
      for speech, so the saved sentence index survives the first play. */
  function InitialReaderResumed(env: Env, st: Start): (r': Reader)
    requires st.pageIndex >= -1 && st.wordIndex >= 0
    ensures r'.currentPageIndex == st.pageIndex && r'.wordIndex == st.wordIndex
    ensures r'.lastTTSPage == if st.highlight then st.pageIndex else 0
    ensures !r'.isPlaying && !r'.isReading && r'.words == [] && r'.spoken == []
    ensures r'.displayed == if 0 <= st.pageIndex < env.pageCount then st.pageIndex else 0
  {
    var r := Reader(st.pageIndex, if st.highlight then st.pageIndex else 0, [], st.wordIndex,
                    false, false, 0, []);
    assert 0 <= st.pageIndex < env.pageCount ==>
      OnMoveToChild(env, r, st.pageIndex) == r.(currentPageIndex := st.pageIndex, displayed := st.pageIndex);
    MoveView(env, r, st.pageIndex)
  }

  /** With that start, the first play speaks the saved sentence. */
  lemma ResumeIndexKept(env: Env, lastPage: int, lastSIndex: int)
    requires 2 <= lastPage <= env.pageCount && lastSIndex >= 1
    requires lastSIndex < |PageSentences(env, lastPage - 1)|
    ensures var st := StartPosition(false, -1, lastPage, lastSIndex);
      var r' := ChangeMediaStatus(env, InitialReaderResumed(env, st));
      && r'.spoken == [PageSentences(env, lastPage - 1)[lastSIndex]]
      && r'.wordIndex == lastSIndex + 1
  {
    var st := StartPosition(false, -1, lastPage, lastSIndex);
    var r := Reader(lastPage - 1, lastPage - 1, [], lastSIndex, false, false, 0, []);
    var r0 := r.(displayed := lastPage - 1);
    assert OnMoveToChild(env, r, lastPage - 1) == r0;
    assert InitialReaderResumed(env, st) == r0;
    assert ChangeMediaStatus(env, r0) == ReadPageText(env, r0.(isPlaying := true), lastPage - 1, false);
    ReadPageTextResetRule(env, r0.(isPlaying := true), lastPage - 1, false);
  }

  /** A start from a note or from the beginning is the same either way. */
  lemma InitialReaderResumedOnlyResumes(env: Env, st: Start)
    requires st.pageIndex >= -1 && st.wordIndex >= 0 && !st.highlight
    ensures InitialReaderResumed(env, st) == InitialReader(env, st)
  {
  }
}
