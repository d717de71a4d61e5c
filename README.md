# SmartReader reading core in Dafny

A model of the reading core of SmartReader, a PDF reader with read-aloud for Android and iOS.
It covers five parts:

- **The MuPDF page session.** `MuPDFCore` holds one open document, its layout parameters and page count, and a single-slot cache for the current page. The slot holds the page handle, its display list and its size. The session also holds a lazily loaded outline and releases its engine handles in a fixed order.
- **The speech-rate preset table.** `TtsSpeechRates` is a fixed table of preset labels and rates, looked up with a default.
- **The Android reader activity.** From `PdfReaderActivity` the model takes:
  - where reading starts, and whether an opened document is shown;
  - whether a file is read into memory or streamed;
  - the page a voice command names;
  - the layout after a resize;
  - speed-preset cycling;
  - the sentence cursor that reads page after page aloud.
- **The iOS reader view controller.** `PDFReaderViewController` builds the document-wide sentence list. The model covers its cursor across "did finish" reports, play/pause, restart and jumps, and the page number a note carries.
- **The app's storage API.** `storageAPI` keeps a PDF list and the settings as JSON under two keys of the device key-value store.

The MuPDF engine is a value of closures (`MuPdfEngine.Engine`): page count under a layout, bookmark remap, page bounds, and whether outline, display-list and text extraction succeed. Every property is therefore proved for every engine.

Each stateful part has two layers:

- **A value layer.** A datatype holds the state and pure functions take it one step at a time: `PageSession`, `AndroidReader`, `IosPlayer` and the `Storage` functions. The lemmas about the source's behaviour are proved on this layer.
- **A class layer.** A class mirrors the source's fields: `MuPdfCore.MuPDFCore`, `ReaderActivity.PdfReaderActivity`, `IosReader.PDFReaderViewController` and `Storage.AsyncStorage`. Its methods update those fields in place, with the source's statements and loops. Each method is proved to move the state exactly as the value-layer function says, and to keep the class invariant.

Platform services are parameters:

- the sentence segmenters (`BreakIterator`, `NLTokenizer`);
- page text;
- the clock;
- the synthesizer. Every `speak` call is appended to a log of calls, and its "done" report is a separate event. The log records what was handed to the synthesizer, not what was heard (see "## Left out").

Files:

| file | module | contents |
|---|---|---|
| engine.dfy | `MuPdfEngine` | `Option`, `Outcome`, engine answers as closures |
| page_session.dfy | `PageSession` | session value, one function per `MuPDFCore` operation, invariant `Inv`, lemmas |
| mupdf_core.dfy | `MuPdfCore` | class `MuPDFCore` with the Java fields |
| speech_rates.dfy | `SpeechRates` | insertion-ordered map, the preset table, `getRate` |
| text_util.dfy | `TextUtil` | trimming, the sentence filter, decimal digits |
| android_reader.dfy | `AndroidReader` | activity decisions and the sentence cursor as functions |
| reader_activity.dfy | `ReaderActivity` | class `PdfReaderActivity` with the Kotlin fields |
| ios_player.dfy | `IosPlayer` | sentence list and cursor moves as functions |
| ios_reader.dfy | `IosReader` | class `PDFReaderViewController` with the Swift fields |
| storage.dfy | `Storage` | JSON values, the storage API, class `AsyncStorage` |

## Model

| member | source | states |
|---|---|---|
| PageSession.BaseZoom | modules/pdf-reader/android/src/main/java/expo/modules/pdfreader/MuPDFCore.java:156 | the base zoom is the integer quotient 160 / 72 = 2, the largest z with z * 72 <= 160 |
| PageSession.Clamp | modules/pdf-reader/android/src/main/java/expo/modules/pdfreader/MuPDFCore.java:95-98 | with pages the request lands in range; an in-range request is kept; a request above the range becomes pageCount - 1 (so -1 with no pages); a negative one becomes 0 |
| PageSession.Open | modules/pdf-reader/android/src/main/java/expo/modules/pdfreader/MuPDFCore.java:43-50 | the opened session: default layout applied, the engine's count and flag, empty slot at -1, no outline, nothing released; its properties are `OpenEstablishesInv` |
| PageSession.EmptySlot | modules/pdf-reader/android/src/main/java/expo/modules/pdfreader/MuPDFCore.java:100-109 | the emptied slot of a miss: page, then display list released if present, size 0x0, number -1; stated in `GotoPageMiss` |
| PageSession.LoadSlot | modules/pdf-reader/android/src/main/java/expo/modules/pdfreader/MuPDFCore.java:111-118 | loading the clamped page into the emptied slot: without a document only the number is set, a failing load throws; stated in `GotoPageMiss` |
| PageSession.GotoPage | modules/pdf-reader/android/src/main/java/expo/modules/pdfreader/MuPDFCore.java:93-120 | `gotoPage` as a step from session to session; its hit, miss, residency and invariant properties are `GotoPageHit`, `GotoPageMiss`, `ResidencyAfterGoto` and `GotoPagePreservesInv` |
| PageSession.PageSize | modules/pdf-reader/android/src/main/java/expo/modules/pdfreader/MuPDFCore.java:122-125 | `getPageSize` as a step; stated in `PageSizeReportsSlot` |
| PageSession.Reflow | modules/pdf-reader/android/src/main/java/expo/modules/pdfreader/MuPDFCore.java:72-91 | `layout` as a step; stated in `ReflowUnchanged`, `ReflowChanged` and `ReflowPreservesInv` |
| PageSession.DrawPage | modules/pdf-reader/android/src/main/java/expo/modules/pdfreader/MuPDFCore.java:139-170 | `drawPage` without the pixel arithmetic, as a step; stated in `DrawPageControl` and `DrawPageRepeatable` |
| PageSession.HasOutline | modules/pdf-reader/android/src/main/java/expo/modules/pdfreader/MuPDFCore.java:194-203 | `hasOutline` as a step; stated in `HasOutlineCaches` |
| PageSession.Authenticate | modules/pdf-reader/android/src/main/java/expo/modules/pdfreader/MuPDFCore.java:209-214 | `authenticatePassword` as a step; stated in `AuthenticateRereads` |
| PageSession.PageText | modules/pdf-reader/android/src/main/java/expo/modules/pdfreader/MuPDFCore.java:216-227 | `getPageText` as a step; stated in `PageTextDegrades` |
| PageSession.PagesText | modules/pdf-reader/android/src/main/java/expo/modules/pdfreader/MuPDFCore.java:232-238 | the text of the first n pages, or none once a page fails; stated in `PagesTextAllOrNothing`, `PagesTextPrefix` and `PageTextAt` |
| PageSession.WholePdfText | modules/pdf-reader/android/src/main/java/expo/modules/pdfreader/MuPDFCore.java:229-245 | `getWholePdfText` over the document alone; stated in `WholePdfTextAllOrNothing` |
| PageSession.Destroy | modules/pdf-reader/android/src/main/java/expo/modules/pdfreader/MuPDFCore.java:127-137 | `onDestroy` as a step; stated in `DestroyOrderAndIdempotence` and `DestroyPreservesInv` |
| PageSession.OpenEstablishesInv | modules/pdf-reader/android/src/main/java/expo/modules/pdfreader/MuPDFCore.java:43-50 | a freshly opened session has the default 312x504/10 layout, an empty slot with page number -1, no outline, the engine's page count, and satisfies the session invariant |
| PageSession.GotoPageHit | modules/pdf-reader/android/src/main/java/expo/modules/pdfreader/MuPDFCore.java:99 | a request that clamps to the resident page number changes nothing |
| PageSession.GotoPageMiss | modules/pdf-reader/android/src/main/java/expo/modules/pdfreader/MuPDFCore.java:100-118 | a miss releases the page then the display list, leaves no display list, and keeps doc, layout, count and outline. With no document the slot takes the number with size 0x0; a failing load throws with the slot empty at -1; otherwise the slot holds the clamped page and its bounds |
| PageSession.ResidencyAfterGoto | modules/pdf-reader/android/src/main/java/expo/modules/pdfreader/MuPDFCore.java:93-120 | after a successful switch in an open session with pages, the resident page is the clamped number, in range, loaded under the current layout |
| PageSession.GotoPagePreservesInv | modules/pdf-reader/android/src/main/java/expo/modules/pdfreader/MuPDFCore.java:93-120 | page switching keeps the session invariant |
| PageSession.PageSizeReportsSlot | modules/pdf-reader/android/src/main/java/expo/modules/pdfreader/MuPDFCore.java:122-125 | `getPageSize` moves the session as `gotoPage` does and reports the slot's width and height |
| PageSession.ReflowUnchanged | modules/pdf-reader/android/src/main/java/expo/modules/pdfreader/MuPDFCore.java:72-73 | `layout` with the stored parameters returns the old page and changes no field |
| PageSession.ReflowChanged | modules/pdf-reader/android/src/main/java/expo/modules/pdfreader/MuPDFCore.java:74-88 | changed parameters are stored; the slot number becomes -1; page count and outline are re-read under the new layout; the remapped page is returned; no page or display list is released |
| PageSession.ReflowPreservesInv | modules/pdf-reader/android/src/main/java/expo/modules/pdfreader/MuPDFCore.java:72-91 | `layout` keeps the session invariant |
| PageSession.DrawPageControl | modules/pdf-reader/android/src/main/java/expo/modules/pdfreader/MuPDFCore.java:139-156 | a display list is built only when none exists and a page is resident; a failed build leaves none. It paints exactly when list and page exist, always with the resident page's list at zoom 2; a throwing switch is passed on |
| PageSession.DrawPageRepeatable | modules/pdf-reader/android/src/main/java/expo/modules/pdfreader/MuPDFCore.java:139-170 | drawing the same tile again paints the same list with the same transform and changes nothing |
| PageSession.HasOutlineCaches | modules/pdf-reader/android/src/main/java/expo/modules/pdfreader/MuPDFCore.java:194-203 | `hasOutline` answers whether an outline is cached after the call; it asks the engine only when none was cached and changes nothing else; a repeat call (which asks again while none is cached, and gets the same answer from the same engine) changes nothing |
| PageSession.AuthenticateRereads | modules/pdf-reader/android/src/main/java/expo/modules/pdfreader/MuPDFCore.java:209-214 | page count and reflowable flag are re-read whatever the answer; the engine's answer is returned; a rejected password leaves count and document as they were |
| PageSession.PageTextDegrades | modules/pdf-reader/android/src/main/java/expo/modules/pdfreader/MuPDFCore.java:216-227 | `getPageText` moves the session as `gotoPage` does and returns "" when no page is resident or extraction fails, else the page's text |
| PageSession.PagesTextAllOrNothing | modules/pdf-reader/android/src/main/java/expo/modules/pdfreader/MuPDFCore.java:229-245 | the first n pages give text exactly when every one of them loads and extracts |
| PageSession.PagesTextPrefix | modules/pdf-reader/android/src/main/java/expo/modules/pdfreader/MuPDFCore.java:232-236 | the text of fewer pages is a prefix of the text of more pages |
| PageSession.PageTextAt | modules/pdf-reader/android/src/main/java/expo/modules/pdfreader/MuPDFCore.java:236 | page i's text and a newline sit right after the text of the pages before it |
| PageSession.WholePdfTextAllOrNothing | modules/pdf-reader/android/src/main/java/expo/modules/pdfreader/MuPDFCore.java:229-245 | `getWholePdfText` is "" when any page fails, and otherwise the text of every page in order |
| PageSession.DestroyOrderAndIdempotence | modules/pdf-reader/android/src/main/java/expo/modules/pdfreader/MuPDFCore.java:127-137 | teardown releases display list, then page, then document, and a second teardown does nothing |
| PageSession.DestroyPreservesInv | modules/pdf-reader/android/src/main/java/expo/modules/pdfreader/MuPDFCore.java:127-137 | after teardown no handle is held, the invariant holds, earlier releases are kept, and teardown is idempotent |
| MuPdfCore.MuPDFCore.constructor | modules/pdf-reader/android/src/main/java/expo/modules/pdfreader/MuPDFCore.java:43-58 | the object is the opened session, with resolution 160 |
| MuPdfCore.MuPDFCore.Layout | modules/pdf-reader/android/src/main/java/expo/modules/pdfreader/MuPDFCore.java:72-91 | the fields and the answer are exactly `Reflow` of the old session, and the invariant holds |
| MuPdfCore.MuPDFCore.Relayout | modules/pdf-reader/android/src/main/java/expo/modules/pdfreader/MuPDFCore.java:74-88 | the changed-parameters path moves the fields exactly as `Reflow` says |
| MuPdfCore.MuPDFCore.ApplyLayout | modules/pdf-reader/android/src/main/java/expo/modules/pdfreader/MuPDFCore.java:79-87 | re-layout sets the document state and slot number -1, and re-reads count and outline |
| MuPdfCore.MuPDFCore.GotoPage | modules/pdf-reader/android/src/main/java/expo/modules/pdfreader/MuPDFCore.java:93-120 | the fields and outcome are exactly `GotoPage` of the old session, and the invariant holds |
| MuPdfCore.MuPDFCore.EmptySlot | modules/pdf-reader/android/src/main/java/expo/modules/pdfreader/MuPDFCore.java:100-109 | the miss's first half releases page then display list and empties the slot |
| MuPdfCore.MuPDFCore.LoadSlot | modules/pdf-reader/android/src/main/java/expo/modules/pdfreader/MuPDFCore.java:111-118 | the miss's second half loads the page when a document is open and records its number |
| MuPdfCore.MuPDFCore.GetPageSize | modules/pdf-reader/android/src/main/java/expo/modules/pdfreader/MuPDFCore.java:122-125 | fields and answer are exactly `PageSize` of the old session |
| MuPdfCore.MuPDFCore.OnDestroy | modules/pdf-reader/android/src/main/java/expo/modules/pdfreader/MuPDFCore.java:127-137 | fields are exactly `Destroy` of the old session, and the invariant holds |
| MuPdfCore.MuPDFCore.DrawPage | modules/pdf-reader/android/src/main/java/expo/modules/pdfreader/MuPDFCore.java:139-170 | fields and answer are exactly `DrawPage` of the old session, and the invariant holds |
| MuPdfCore.MuPDFCore.UpdatePage | modules/pdf-reader/android/src/main/java/expo/modules/pdfreader/MuPDFCore.java:172-178 | `updatePage` moves the session exactly as `drawPage` with the same arguments |
| MuPdfCore.MuPDFCore.HasOutline | modules/pdf-reader/android/src/main/java/expo/modules/pdfreader/MuPDFCore.java:194-203 | fields and answer are exactly `HasOutline` of the old session |
| MuPdfCore.MuPDFCore.AuthenticatePassword | modules/pdf-reader/android/src/main/java/expo/modules/pdfreader/MuPDFCore.java:209-214 | fields and answer are exactly `Authenticate` of the old session |
| MuPdfCore.MuPDFCore.GetPageText | modules/pdf-reader/android/src/main/java/expo/modules/pdfreader/MuPDFCore.java:216-227 | fields and answer are exactly `PageText` of the old session |
| MuPdfCore.MuPDFCore.GetWholePdfText | modules/pdf-reader/android/src/main/java/expo/modules/pdfreader/MuPDFCore.java:229-245 | the loop's answer is `WholePdfText` of the session, and no field changes |
| SpeechRates.KeysCons | modules/pdf-reader/android/src/main/java/expo/modules/pdfreader/TtsSpeechRates.java:15 | the key list of a non-empty table is its first key followed by the rest's keys |
| SpeechRates.Get | modules/pdf-reader/android/src/main/java/expo/modules/pdfreader/TtsSpeechRates.java:38 | a lookup finds a value exactly when the key is in the table, and the value found is that key's entry |
| SpeechRates.Put | modules/pdf-reader/android/src/main/java/expo/modules/pdfreader/TtsSpeechRates.java:16-19 | a put keeps the key order and appends a new key at the end |
| SpeechRates.PutGet | modules/pdf-reader/android/src/main/java/expo/modules/pdfreader/TtsSpeechRates.java:16-19 | after a put the key maps to the new value and every other key is unchanged |
| SpeechRates.PutNew | modules/pdf-reader/android/src/main/java/expo/modules/pdfreader/TtsSpeechRates.java:16-19 | putting a new key appends its entry |
| SpeechRates.TableContents | modules/pdf-reader/android/src/main/java/expo/modules/pdfreader/TtsSpeechRates.java:14-23 | the static table is exactly 0.75x, 1x, 1.5x, 2x with rates 0.75, 1.0, 1.5, 2.0, in that order |
| SpeechRates.GetRates | modules/pdf-reader/android/src/main/java/expo/modules/pdfreader/TtsSpeechRates.java:29-31 | `getRates` is that table, with keys in insertion order |
| SpeechRates.GetOrDefault | modules/pdf-reader/android/src/main/java/expo/modules/pdfreader/TtsSpeechRates.java:36 | `Map.getOrDefault`: the key's value, or the default when the key is absent; related to `get` by `GetOrDefaultIsGetWithNullCheck` |
| SpeechRates.GetRate | modules/pdf-reader/android/src/main/java/expo/modules/pdfreader/TtsSpeechRates.java:34-41 | `getRate` with both SDK branches; stated in `GetRateBranchesAgree`, `GetRatePresent` and `GetRateAbsent` |
| SpeechRates.GetOrDefaultIsGetWithNullCheck | modules/pdf-reader/android/src/main/java/expo/modules/pdfreader/TtsSpeechRates.java:36-39 | `getOrDefault` equals `get` followed by the null check |
| SpeechRates.GetRateBranchesAgree | modules/pdf-reader/android/src/main/java/expo/modules/pdfreader/TtsSpeechRates.java:35-40 | both SDK branches of `getRate` give the same rate for every key |
| SpeechRates.GetRatePresent | modules/pdf-reader/android/src/main/java/expo/modules/pdfreader/TtsSpeechRates.java:36-39 | a key in the table gets its own rate |
| SpeechRates.GetRateAbsent | modules/pdf-reader/android/src/main/java/expo/modules/pdfreader/TtsSpeechRates.java:36-39 | a key not in the table gets the default 1.0 |
| TextUtil.Trim | modules/pdf-reader/android/src/main/java/expo/modules/pdfreader/PdfReaderActivity.kt:593 | `trim` with a blank predicate; stated in `TrimIsCore`, `TrimEmptyIffAllBlank`, `TrimmedIsFixpoint` and `TrimIdempotent` |
| TextUtil.LeadingBlanksSpec | modules/pdf-reader/android/src/main/java/expo/modules/pdfreader/PdfReaderActivity.kt:593 | the counted leading characters are blank and the next one is not |
| TextUtil.TrailingStartSpec | modules/pdf-reader/android/src/main/java/expo/modules/pdfreader/PdfReaderActivity.kt:593 | everything from the trimmed end on is blank and the character before it is not |
| TextUtil.TrimIsCore | modules/pdf-reader/android/src/main/java/expo/modules/pdfreader/PdfReaderActivity.kt:593 | the trimmed text is the slice between the first and last non-blank characters; everything cut away is blank |
| TextUtil.TrimEmptyIffAllBlank | modules/pdf-reader/android/src/main/java/expo/modules/pdfreader/PdfReaderActivity.kt:594 | trimming gives "" exactly when every character is blank |
| TextUtil.TrimmedIsFixpoint | modules/pdf-reader/ios/PDFReaderViewController.swift:341 | trimming leaves a string unchanged exactly when it neither starts nor ends with a blank, and its result never does |
| TextUtil.TrimIdempotent | modules/pdf-reader/ios/PDFReaderViewController.swift:341 | trimming twice is trimming once |
| TextUtil.Sentences | modules/pdf-reader/android/src/main/java/expo/modules/pdfreader/PdfReaderActivity.kt:587-599 | the kept sentences are no more than the segments, each non-empty and trimmed |
| TextUtil.SentencesStep | modules/pdf-reader/android/src/main/java/expo/modules/pdfreader/PdfReaderActivity.kt:592-599 | one more segment adds its trimmed text, unless it is empty |
| TextUtil.SentencesAppend | modules/pdf-reader/android/src/main/java/expo/modules/pdfreader/PdfReaderActivity.kt:592-599 | what a segment contributes does not depend on its neighbours |
| TextUtil.DecimalString | src/utils/storage.js:28 | the decimal representation is non-empty and all digits |
| TextUtil.DecimalStringRoundTrip | src/utils/storage.js:28 | reading the decimal representation back gives the number |
| AndroidReader.StartPosition | modules/pdf-reader/android/src/main/java/expo/modules/pdfreader/PdfReaderActivity.kt:143-156 | the start page and sentence from the intent extras; its three branches are `StartPositionCases` |
| AndroidReader.OpenOutcomeOf | modules/pdf-reader/android/src/main/java/expo/modules/pdfreader/PdfReaderActivity.kt:190-221 | what `setDocumentUri` does after `openCore`; stated in `OpenOutcomeCases` |
| AndroidReader.StartPositionCases | modules/pdf-reader/android/src/main/java/expo/modules/pdfreader/PdfReaderActivity.kt:143-156 | a note with a page starts there, without highlight; otherwise a resume with highlight happens exactly when lastPage is not -1 or 1 and lastSIndex is not -1 or 0; else page 0, sentence 0 |
| AndroidReader.OpenOutcomeCases | modules/pdf-reader/android/src/main/java/expo/modules/pdfreader/PdfReaderActivity.kt:190-221 | the reader UI is shown exactly when a core already existed or the new one needs no password and has pages. A core with no pages is dropped; one needing a password asks for it |
| AndroidReader.ReportedSize | modules/pdf-reader/android/src/main/java/expo/modules/pdfreader/PdfReaderActivity.kt:164-178 | a reported size of 0, or none, is treated as unknown (-1); any other is kept |
| AndroidReader.OpenCoreSource | modules/pdf-reader/android/src/main/java/expo/modules/pdfreader/PdfReaderActivity.kt:407-447 | `openCore`'s buffer-or-stream choice as written; stated in `OpenCoreSourceCases` and `OpenCoreKeepsShortRead` |
| AndroidReader.OpenCoreSourceChecked | modules/pdf-reader/android/src/main/java/expo/modules/pdfreader/PdfReaderActivity.kt:417-422 | the same choice with the end-of-stream check for unknown sizes; stated in `OpenCoreSourceCheckedComplete` |
| AndroidReader.OpenCoreSourceCases | modules/pdf-reader/android/src/main/java/expo/modules/pdfreader/PdfReaderActivity.kt:416-433 | unknown size keeps the buffer unless the read fails, the limit is filled with more to come, or memory runs out. A known size keeps it only when within the limit and the read is not short. A kept buffer holds exactly the bytes read |
| AndroidReader.OpenCoreKeepsShortRead | modules/pdf-reader/android/src/main/java/expo/modules/pdfreader/PdfReaderActivity.kt:417-422 | as written, a short read of a stream of unknown size keeps a partial buffer |
| AndroidReader.OpenCoreSourceCheckedComplete | modules/pdf-reader/android/src/main/java/expo/modules/pdfreader/PdfReaderActivity.kt:417-422 | with the end-of-stream check, a kept buffer is the whole stream (unknown size) or the reported size |
| AndroidReader.RunLength | modules/pdf-reader/android/src/main/java/expo/modules/pdfreader/PdfReaderActivity.kt:755 | the run found is maximal: all its characters match and the next does not |
| AndroidReader.FirstMatch | modules/pdf-reader/android/src/main/java/expo/modules/pdfreader/PdfReaderActivity.kt:756 | the match found is the leftmost position where `page\s+\d+` matches |
| AndroidReader.CapturedDigits | modules/pdf-reader/android/src/main/java/expo/modules/pdfreader/PdfReaderActivity.kt:757 | the captured group is a non-empty run of digits |
| AndroidReader.ExtractPageNumber | modules/pdf-reader/android/src/main/java/expo/modules/pdfreader/PdfReaderActivity.kt:753-758 | a number is found only when it fits an `Int` and is not negative |
| AndroidReader.ExtractPageNumberRoundTrip | modules/pdf-reader/android/src/main/java/expo/modules/pdfreader/PdfReaderActivity.kt:753-758 | "page" in any letter case, whitespace and a number gives that number back |
| AndroidReader.NoPageWordNoNumber | modules/pdf-reader/android/src/main/java/expo/modules/pdfreader/PdfReaderActivity.kt:755-757 | a command without "page" names no page |
| AndroidReader.VoiceTarget | modules/pdf-reader/android/src/main/java/expo/modules/pdfreader/PdfReaderActivity.kt:800-807 | the page index a recognised command moves to; stated in `VoiceTargetBounds` |
| AndroidReader.VoiceTargetBounds | modules/pdf-reader/android/src/main/java/expo/modules/pdfreader/PdfReaderActivity.kt:800-806 | a command moves the view exactly when its number is at most the page count, to index number - 1. Only the upper bound is checked, so "page 0" asks for index -1 |
| AndroidReader.Wrap32 | modules/pdf-reader/android/src/main/java/expo/modules/pdfreader/PdfReaderActivity.kt:260-261 | Kotlin `Int` arithmetic wraps to 32 bits: the result is in the `Int` range and differs from the exact value by a multiple of 2^32, so it is the identity within range |
| AndroidReader.TruncDiv | modules/pdf-reader/android/src/main/java/expo/modules/pdfreader/PdfReaderActivity.kt:260-261 | Kotlin `Int` division by a positive divisor rounds toward zero: below the exact quotient for non-negative dividends, above it for negative ones, by less than one |
| AndroidReader.ResizedLayout | modules/pdf-reader/android/src/main/java/expo/modules/pdfreader/PdfReaderActivity.kt:258-266 | only a reflowable document gets a new layout |
| AndroidReader.ResizedLayoutInPoints | modules/pdf-reader/android/src/main/java/expo/modules/pdfreader/PdfReaderActivity.kt:258-262 | without overflow, the layout size is the pixel size in points, rounded down |
| AndroidReader.IndexOf | modules/pdf-reader/android/src/main/java/expo/modules/pdfreader/PdfReaderActivity.kt:542 | `indexOf` gives the first index holding the key, and -1 exactly when it is absent |
| AndroidReader.InitialRateIndex | modules/pdf-reader/android/src/main/java/expo/modules/pdfreader/PdfReaderActivity.kt:542-543 | the starting preset is the position of "1x" when the list has it, and the first preset otherwise |
| AndroidReader.NextRateIndex | modules/pdf-reader/android/src/main/java/expo/modules/pdfreader/PdfReaderActivity.kt:717 | the next preset index stays in the list, is one on from a preset before the last, and wraps from the last to the first |
| AndroidReader.RateIndexAfter | modules/pdf-reader/android/src/main/java/expo/modules/pdfreader/PdfReaderActivity.kt:717 | the preset index stays within the list after any number of presses |
| AndroidReader.RateIndexWithinRound | modules/pdf-reader/android/src/main/java/expo/modules/pdfreader/PdfReaderActivity.kt:717 | within one round of presses the index moves k presets on, wrapping from the last to the first |
| AndroidReader.RateIndexPeriodic | modules/pdf-reader/android/src/main/java/expo/modules/pdfreader/PdfReaderActivity.kt:717 | pressing as many times as there are presets comes back to the same preset |
| AndroidReader.RateIndexReaches | modules/pdf-reader/android/src/main/java/expo/modules/pdfreader/PdfReaderActivity.kt:714-729 | every preset is reached from any other |
| AndroidReader.RatePresetsStart | modules/pdf-reader/android/src/main/java/expo/modules/pdfreader/PdfReaderActivity.kt:539-549 | the presets are 0.75x, 1x, 1.5x, 2x, and `initDefaults` starts on 1x at rate 1.0 |
| AndroidReader.PageSentences | modules/pdf-reader/android/src/main/java/expo/modules/pdfreader/PdfReaderActivity.kt:587-599 | the sentences `readPageText` keeps for a page: the non-empty trimmed segments of its text; their shape is `TextUtil.Sentences` |
| AndroidReader.SpeakCompleted | modules/pdf-reader/android/src/main/java/expo/modules/pdfreader/PdfReaderActivity.kt:609-623 | `onPDFSpeakCompleted`'s effect on the reading state; stated in `SpeakNextWordCompletes` |
| AndroidReader.MoveView | modules/pdf-reader/android/src/main/java/expo/modules/pdfreader/PdfReaderActivity.kt:639 | setting the view's page never moves the current page back, and an index outside the document is ignored |
| AndroidReader.OnMoveToChild | modules/pdf-reader/android/src/main/java/expo/modules/pdfreader/PdfReaderActivity.kt:232-244 | after the view reports page i, the current page is at least i |
| AndroidReader.ReadPageText | modules/pdf-reader/android/src/main/java/expo/modules/pdfreader/PdfReaderActivity.kt:579-607 | reading a page never moves the current page back; the reset rule is `ReadPageTextResetRule` |
| AndroidReader.SpeakNextWord | modules/pdf-reader/android/src/main/java/expo/modules/pdfreader/PdfReaderActivity.kt:625-658 | speaking never moves the current page back; its three cases are `SpeakNextWordSpeaks`, `SpeakNextWordCompletes` and `SpeakNextWordIdle` |
| AndroidReader.FinishPage | modules/pdf-reader/android/src/main/java/expo/modules/pdfreader/PdfReaderActivity.kt:633-646 | finishing a page never moves the current page back |
| AndroidReader.TurnPage | modules/pdf-reader/android/src/main/java/expo/modules/pdfreader/PdfReaderActivity.kt:636-641 | a page turn moves the current page forward; stated in `PageTurnWhilePlaying` |
| AndroidReader.ChangeMediaStatus | modules/pdf-reader/android/src/main/java/expo/modules/pdfreader/PdfReaderActivity.kt:690-711 | pausing only drops the playing flag and keeps the cursor; playing never moves the current page back |
| AndroidReader.RestartMedia | modules/pdf-reader/android/src/main/java/expo/modules/pdfreader/PdfReaderActivity.kt:672-688 | after a restart the current page is a real page index (at least 0); what it speaks is stated in `RestartMediaWhilePaused` and `RestartMediaSkipsFirstPage` |
| AndroidReader.RestartMediaWhilePaused | modules/pdf-reader/android/src/main/java/expo/modules/pdfreader/PdfReaderActivity.kt:672-688 | a restart while paused shows page 0, plays, and speaks exactly the first sentence of page 0, with the index past it and page 0 recorded as loaded |
| AndroidReader.RestartMediaSkipsFirstPage | modules/pdf-reader/android/src/main/java/expo/modules/pdfreader/PdfReaderActivity.kt:672-688 | a restart while playing, with page 0 loaded and its sentences all handed out, in a document of two or more pages, ends on a page after the first |
| AndroidReader.RestartMediaChecked | modules/pdf-reader/android/src/main/java/expo/modules/pdfreader/PdfReaderActivity.kt:672-688 | the restart with the playing flag down during the view move; the page index is at least 0 |
| AndroidReader.RestartMediaCheckedStartsOver | modules/pdf-reader/android/src/main/java/expo/modules/pdfreader/PdfReaderActivity.kt:672-688 | the corrected restart, playing or not, shows page 0 and speaks exactly its first sentence; while paused it equals the restart as written |
| AndroidReader.InitialReader | modules/pdf-reader/android/src/main/java/expo/modules/pdfreader/PdfReaderActivity.kt:143-156 | the state after the UI is built: the start page and sentence, `lastTTSPage` 0 (declared at line 62), nothing loaded or spoken, not playing, and the view on the start page when it is a page |
| AndroidReader.SpeakNextWordSpeaks | modules/pdf-reader/android/src/main/java/expo/modules/pdfreader/PdfReaderActivity.kt:648-656 | while a sentence is left, it is spoken and the index moves one on; nothing else changes |
| AndroidReader.SpeakNextWordCompletes | modules/pdf-reader/android/src/main/java/expo/modules/pdfreader/PdfReaderActivity.kt:633-645 | past the last sentence of the last page, the completion message is spoken, both flags drop, the index is 0 and the list is empty |
| AndroidReader.SpeakNextWordIdle | modules/pdf-reader/android/src/main/java/expo/modules/pdfreader/PdfReaderActivity.kt:626 | a call while not reading does nothing |
| AndroidReader.ReadPageTextResetRule | modules/pdf-reader/android/src/main/java/expo/modules/pdfreader/PdfReaderActivity.kt:579-607 | the page's sentences are loaded. The index restarts at the first sentence only when the current page is not the one last loaded, or on a forced reset; otherwise the stored sentence is spoken |
| AndroidReader.PageTurnWhilePlaying | modules/pdf-reader/android/src/main/java/expo/modules/pdfreader/PdfReaderActivity.kt:633-641 | at the end of a page while playing, the next page is shown and its first sentence is handed to the synthesizer; the turn's own read then hands over the second sentence straight away. Both `speak` calls are logged, although with `QUEUE_FLUSH` the second cuts the first off |
| AndroidReader.ResumeIndexDiscarded | modules/pdf-reader/android/src/main/java/expo/modules/pdfreader/PdfReaderActivity.kt:148-156 | as written, the first play of a resumed session starts its page at sentence 0, not at the saved sentence |
| AndroidReader.InitialReaderResumed | modules/pdf-reader/android/src/main/java/expo/modules/pdfreader/PdfReaderActivity.kt:143-156 | the corrected start: as `InitialReader`, except that a resumed start counts its page as already loaded (`lastTTSPage` is the start page) |
| AndroidReader.ResumeIndexKept | modules/pdf-reader/android/src/main/java/expo/modules/pdfreader/PdfReaderActivity.kt:148-156 | with the resumed page counted as loaded, the first play speaks the saved sentence |
| AndroidReader.InitialReaderResumedOnlyResumes | modules/pdf-reader/android/src/main/java/expo/modules/pdfreader/PdfReaderActivity.kt:143-147 | starts from a note or from the beginning are unaffected by that correction |
| ReaderActivity.PdfReaderActivity.constructor | modules/pdf-reader/android/src/main/java/expo/modules/pdfreader/PdfReaderActivity.kt:131-156 | the state is `AndroidReader.InitialReader` of the start position: position applied, `lastTTSPage` 0 as declared, view moved to its page; rate presets come from the table |
| ReaderActivity.PdfReaderActivity.MoveView | modules/pdf-reader/android/src/main/java/expo/modules/pdfreader/PdfReaderActivity.kt:639 | moving the view moves the state exactly as `AndroidReader.MoveView` |
| ReaderActivity.PdfReaderActivity.OnMoveToChild | modules/pdf-reader/android/src/main/java/expo/modules/pdfreader/PdfReaderActivity.kt:232-244 | the state moves exactly as `AndroidReader.OnMoveToChild` |
| ReaderActivity.PdfReaderActivity.ReadPageText | modules/pdf-reader/android/src/main/java/expo/modules/pdfreader/PdfReaderActivity.kt:579-607 | the state moves exactly as `AndroidReader.ReadPageText` |
| ReaderActivity.PdfReaderActivity.LoadPageWords | modules/pdf-reader/android/src/main/java/expo/modules/pdfreader/PdfReaderActivity.kt:587-599 | the loop leaves exactly the page's non-empty trimmed sentences |
| ReaderActivity.PdfReaderActivity.SpeakCompleted | modules/pdf-reader/android/src/main/java/expo/modules/pdfreader/PdfReaderActivity.kt:609-623 | the state moves exactly as `AndroidReader.SpeakCompleted` |
| ReaderActivity.PdfReaderActivity.SpeakNextWord | modules/pdf-reader/android/src/main/java/expo/modules/pdfreader/PdfReaderActivity.kt:625-657 | the state moves exactly as `AndroidReader.SpeakNextWord` |
| ReaderActivity.PdfReaderActivity.FinishPage | modules/pdf-reader/android/src/main/java/expo/modules/pdfreader/PdfReaderActivity.kt:633-646 | the state moves exactly as `AndroidReader.FinishPage` |
| ReaderActivity.PdfReaderActivity.TurnPage | modules/pdf-reader/android/src/main/java/expo/modules/pdfreader/PdfReaderActivity.kt:636-641 | the state moves exactly as `AndroidReader.TurnPage` |
| ReaderActivity.PdfReaderActivity.OnUtteranceDone | modules/pdf-reader/android/src/main/java/expo/modules/pdfreader/PdfReaderActivity.kt:660-664 | an utterance's "done" report is one more `speakNextWord` |
| ReaderActivity.PdfReaderActivity.ChangeMediaStatus | modules/pdf-reader/android/src/main/java/expo/modules/pdfreader/PdfReaderActivity.kt:690-711 | the state moves exactly as `AndroidReader.ChangeMediaStatus` |
| ReaderActivity.PdfReaderActivity.RestartMedia | modules/pdf-reader/android/src/main/java/expo/modules/pdfreader/PdfReaderActivity.kt:672-688 | the state moves exactly as `AndroidReader.RestartMedia` |
| ReaderActivity.PdfReaderActivity.OnVoiceCommand | modules/pdf-reader/android/src/main/java/expo/modules/pdfreader/PdfReaderActivity.kt:800-819 | a command is accepted exactly when it names a page at most the page count; then the view moves to that index, else nothing changes |
| ReaderActivity.PdfReaderActivity.InitDefaults | modules/pdf-reader/android/src/main/java/expo/modules/pdfreader/PdfReaderActivity.kt:539-549 | the index is that of "1x", or 0; the label and rate applied are that preset's |
| ReaderActivity.PdfReaderActivity.ChangeSpeechRate | modules/pdf-reader/android/src/main/java/expo/modules/pdfreader/PdfReaderActivity.kt:714-729 | the index moves to the next preset, wrapping; the label and rate applied are that preset's |
| IosPlayer.Tagged | modules/pdf-reader/ios/PDFReaderViewController.swift:344 | each sentence becomes an item of the given page, in order |
| IosPlayer.TaggedSnoc | modules/pdf-reader/ios/PDFReaderViewController.swift:344 | appending a sentence appends its item |
| IosPlayer.TaggedSentencesStep | modules/pdf-reader/ios/PDFReaderViewController.swift:340-347 | a sentence token adds its trimmed text as an item of the page, or nothing when that text is empty |
| IosPlayer.TokenItemsAreTaggedSentences | modules/pdf-reader/ios/PDFReaderViewController.swift:340-347 | the token loop's running list is the page's non-empty trimmed sentences as items |
| IosPlayer.PageWithoutTextSkipped | modules/pdf-reader/ios/PDFReaderViewController.swift:334 | a page with no text or empty text adds no item and no content |
| IosPlayer.PageItemsWellFormed | modules/pdf-reader/ios/PDFReaderViewController.swift:338-347 | every item of a page names that page, and its text is non-empty and trimmed |
| IosPlayer.DocItemsWellFormed | modules/pdf-reader/ios/PDFReaderViewController.swift:333-348 | every item of the document names one of its pages and has non-empty trimmed text |
| IosPlayer.DocItemsInPageOrder | modules/pdf-reader/ios/PDFReaderViewController.swift:333-348 | the items come in page order |
| IosPlayer.DocItemsPrefix | modules/pdf-reader/ios/PDFReaderViewController.swift:333 | loading more pages only appends items |
| IosPlayer.DocContentEmpty | modules/pdf-reader/ios/PDFReaderViewController.swift:333-358 | no content is sent exactly when no page has text, and then the list is empty |
| IosPlayer.JumpTarget | modules/pdf-reader/ios/PDFReaderViewController.swift:363-365 | a jump happens exactly when a document is shown and 1 <= pageNumber <= pageCount, to index pageNumber - 1 |
| IosPlayer.NoteEvent | modules/pdf-reader/ios/PDFReaderViewController.swift:475-495 | no selection sends ("", 0). A selection sends its trimmed text with its page's index + 1, and a page number of at least 1 in any case |
| IosPlayer.NoteEventPageTellsSelection | modules/pdf-reader/ios/PDFReaderViewController.swift:482-492 | the page number is 0 exactly when nothing is selected |
| IosPlayer.LoadDocument | modules/pdf-reader/ios/PDFReaderViewController.swift:328-359 | `loadDocument` as a step; stated in `LoadDocumentKeepsCursor`, `DocItemsWellFormed`, `DocItemsInPageOrder` and `DocContentEmpty` |
| IosPlayer.JumpToPage | modules/pdf-reader/ios/PDFReaderViewController.swift:361-369 | `jumpToPage` as a step: the shown page moves to `JumpTarget` when it has one |
| IosPlayer.JumpToSavedPosition | modules/pdf-reader/ios/PDFReaderViewController.swift:372-384 | `jumpToSavedPosition` as a step; it keeps the cursor bound (`MovesPreserveInv`) |
| IosPlayer.SpeakCurrentItem | modules/pdf-reader/ios/PDFReaderViewController.swift:498-520 | `speakCurrentItem` as a step; stated in `SpeakCurrentItemGuard` |
| IosPlayer.TogglePlayPause | modules/pdf-reader/ios/PDFReaderViewController.swift:388-407 | the play/pause button as a step; stated in `PlayWithNothingToRead` and `MovesPreserveInv` |
| IosPlayer.RestartReadingAsWritten | modules/pdf-reader/ios/PDFReaderViewController.swift:411-426 | `restartReading` as written, trapping on an empty list; stated in `RestartReadingTrapsOnEmptyList` and `RestartReadingAgrees` |
| IosPlayer.RestartReading | modules/pdf-reader/ios/PDFReaderViewController.swift:411-426 | the guarded restart; stated in `RestartReadingAgrees` and `MovesPreserveInv` |
| IosPlayer.RestartPlaying | modules/pdf-reader/ios/PDFReaderViewController.swift:428-433 | `restartPlaying` as a step; stated in `MovesPreserveInv` |
| IosPlayer.DidFinish | modules/pdf-reader/ios/PDFReaderViewController.swift:555-573 | the "did finish" report as a step; stated in `DidFinishDuringRestart`, `DidFinishAdvances`, `ReadsInOrder`, `DidFinishNext` and `StopsAtEnd` |
| IosPlayer.Progress | modules/pdf-reader/ios/PDFReaderViewController.swift:576-580 | the progress bar value; stated in `ProgressBounds` |
| IosPlayer.LoadDocumentKeepsCursor | modules/pdf-reader/ios/PDFReaderViewController.swift:328-359 | loading keeps the cursor; the cursor stays within the list exactly when the new list is at least that long |
| IosPlayer.RestartReadingTrapsOnEmptyList | modules/pdf-reader/ios/PDFReaderViewController.swift:411-418 | as written, restarting with an empty list traps on `items[0]`; the guarded restart moves the cursor home |
| IosPlayer.RestartReadingAgrees | modules/pdf-reader/ios/PDFReaderViewController.swift:411-426 | as written, restart succeeds exactly on a non-empty list, and then agrees with the guarded restart |
| IosPlayer.DidFinishDuringRestart | modules/pdf-reader/ios/PDFReaderViewController.swift:557 | a report during a restart changes nothing but the synthesizer's state |
| IosPlayer.DidFinishAdvances | modules/pdf-reader/ios/PDFReaderViewController.swift:555-573 | outside a restart the cursor moves one on, never past the list's end. The next sentence is spoken exactly when one is left; otherwise playing stops with nothing spoken |
| IosPlayer.SpeakCurrentItemGuard | modules/pdf-reader/ios/PDFReaderViewController.swift:498-520 | a sentence is spoken and its page shown exactly when the cursor is on one; otherwise only playing stops |
| IosPlayer.MovesPreserveInv | modules/pdf-reader/ios/PDFReaderViewController.swift:361-433 | speak, finish, play/pause, restart, replay and both jumps keep the cursor within the list |
| IosPlayer.ProgressBounds | modules/pdf-reader/ios/PDFReaderViewController.swift:576-580 | within that bound the progress is between 0 and 1, and full exactly at the end of a non-empty list |
| IosPlayer.PlayWithNothingToRead | modules/pdf-reader/ios/PDFReaderViewController.swift:396-403 | pressing play with nothing to read speaks nothing but shows playing |
| IosPlayer.Finished | modules/pdf-reader/ios/PDFReaderViewController.swift:555-573 | a run of reports keeps the cursor non-negative |
| IosPlayer.TextsBetweenLists | modules/pdf-reader/ios/PDFReaderViewController.swift:562-567 | the texts listed are exactly those of the items between the bounds |
| IosPlayer.ReadsInOrder | modules/pdf-reader/ios/PDFReaderViewController.swift:555-573 | uninterrupted, k reports speak the next k sentences in list order and move the cursor k on |
| IosPlayer.DidFinishNext | modules/pdf-reader/ios/PDFReaderViewController.swift:562-567 | one report mid-list moves on, shows the next sentence's page and speaks it |
| IosPlayer.StopsAtEnd | modules/pdf-reader/ios/PDFReaderViewController.swift:565-571 | the last sentence's report stops playing with the cursor at the end |
| IosReader.PDFReaderViewController.constructor | modules/pdf-reader/ios/PDFReaderViewController.swift:22-33 | a fresh controller has an empty list, cursor 0, both flags off and an idle synthesizer |
| IosReader.PDFReaderViewController.LoadDocument | modules/pdf-reader/ios/PDFReaderViewController.swift:328-359 | the page loop leaves the fields as `IosPlayer.LoadDocument` says and answers each page's text plus newline, in order |
| IosReader.PDFReaderViewController.LoadPage | modules/pdf-reader/ios/PDFReaderViewController.swift:334-347 | one pass of the loop appends that page's items and answers its content |
| IosReader.PDFReaderViewController.AppendSentences | modules/pdf-reader/ios/PDFReaderViewController.swift:340-347 | the token loop appends exactly the page's non-empty trimmed tokens as items |
| IosReader.PDFReaderViewController.JumpToPage | modules/pdf-reader/ios/PDFReaderViewController.swift:361-369 | the shown page moves exactly as `IosPlayer.JumpToPage` |
| IosReader.PDFReaderViewController.JumpToSavedPosition | modules/pdf-reader/ios/PDFReaderViewController.swift:372-384 | the state moves exactly as `IosPlayer.JumpToSavedPosition` and the cursor stays non-negative |
| IosReader.PDFReaderViewController.SpeakCurrentItem | modules/pdf-reader/ios/PDFReaderViewController.swift:498-520 | the state moves exactly as `IosPlayer.SpeakCurrentItem` |
| IosReader.PDFReaderViewController.TogglePlayPause | modules/pdf-reader/ios/PDFReaderViewController.swift:388-407 | the state moves exactly as `IosPlayer.TogglePlayPause` |
| IosReader.PDFReaderViewController.RestartReading | modules/pdf-reader/ios/PDFReaderViewController.swift:411-426 | it traps exactly when the list is empty; otherwise the fields move exactly as `IosPlayer.RestartReadingAsWritten` says |
| IosReader.PDFReaderViewController.RestartPlaying | modules/pdf-reader/ios/PDFReaderViewController.swift:428-433 | the state moves exactly as `IosPlayer.RestartPlaying` |
| IosReader.PDFReaderViewController.DidFinish | modules/pdf-reader/ios/PDFReaderViewController.swift:555-573 | the state moves exactly as `IosPlayer.DidFinish` |
| IosReader.DocItemsStep | modules/pdf-reader/ios/PDFReaderViewController.swift:333-348 | one more page appends that page's items and content |
| Storage.Prop | src/utils/storage.js:29-31 | reading a member of null or undefined throws; an object gives its member, or undefined |
| Storage.DecimalStringDistinct | src/utils/storage.js:28 | different times give different ids |
| Storage.Chars | src/utils/storage.js:33 | a string spreads into its characters, in order |
| Storage.IndexedMembers | src/utils/storage.js:33 | spreading an array or string gives member "i" holding element i |
| Storage.IndexedValues | src/utils/storage.js:33 | every spread member holds one of the elements |
| Storage.Elements | src/utils/storage.js:36 | only arrays and strings can be spread into a list, and they give their elements |
| Storage.RoundTrip | src/utils/storage.js:37 | what serialising and parsing back yields holds no `undefined` |
| Storage.RoundTripIdentity | src/utils/storage.js:37 | serialising and parsing back leaves a JSON value unchanged |
| Storage.GetPDFs | src/utils/storage.js:14-22 | the stored list, or [] when the key is absent, empty or unreadable |
| Storage.NewRecord | src/utils/storage.js:27-34 | a record is built exactly when `pdf` is not null or undefined |
| Storage.Filter | src/utils/storage.js:48 | filtering throws exactly when some record is null or undefined, and never lengthens the list |
| Storage.GetSettings | src/utils/storage.js:58-68 | the settings always have both default keys |
| Storage.SavePDFStep | src/utils/storage.js:24-43 | `savePDF` as a step on the store; stated in `SaveAppendsOne` and `NewRecordFields` |
| Storage.DeletePDFStep | src/utils/storage.js:45-55 | `deletePDF` as a step on the store; stated in `DeleteIdempotent` |
| Storage.UpdateSettingsStep | src/utils/storage.js:70-80 | `updateSettings` as a step on the store; stated in `UpdateThenGet` |
| Storage.SaveAppendsOne | src/utils/storage.js:24-43 | `savePDF` succeeds exactly when `pdf` is not nullish and the stored list is iterable. It then stores the old list with exactly its serialised record appended; a throw leaves the store alone |
| Storage.NewRecordFields | src/utils/storage.js:27-34 | the caller's members win, including `id`; missing ones take the defaults, with `type` "upload" when absent and the caller's when truthy; no other member appears |
| Storage.FilterAppend | src/utils/storage.js:48 | filtering keeps the order: filtering a concatenation concatenates the filtered parts |
| Storage.FilterKeeps | src/utils/storage.js:48 | a record survives exactly when its `id` is not `pdfId` |
| Storage.FilterNoMatch | src/utils/storage.js:48 | a list with no matching record is kept unchanged |
| Storage.DeleteIdempotent | src/utils/storage.js:45-55 | `deletePDF` stores exactly the records whose `id` is not `pdfId`; deleting again changes nothing |
| Storage.SettingsMerge | src/utils/storage.js:58-68 | stored members win over the defaults, missing defaults are kept, and with nothing readable stored the answer is the defaults |
| Storage.UpdateThenGet | src/utils/storage.js:70-80 | settings read back after `updateSettings` are the ones it returned, for new settings without `undefined` |
| Storage.SettingsAreJson | src/utils/storage.js:61-63 | the current settings hold JSON values only |
| Storage.JsonMerge | src/utils/storage.js:73 | merging two maps of JSON values gives a JSON object |
| Storage.DefaultsUnderneath | src/utils/storage.js:62 | spreading the defaults under settings that have both keys changes nothing |
| Storage.SpreadIsJson | src/utils/storage.js:62 | the members a JSON value spreads are JSON values |
| Storage.WritesKeepStoreInv | src/utils/storage.js:37 | every write keeps the stored texts free of `undefined` |
| Storage.AsyncStorage.constructor | src/utils/storage.js:1 | the store starts with the given contents |
| Storage.AsyncStorage.SavePDF | src/utils/storage.js:24-43 | result and new store are exactly `SavePDFStep` of the old store |
| Storage.AsyncStorage.DeletePDF | src/utils/storage.js:45-55 | result and new store are exactly `DeletePDFStep` of the old store |
| Storage.AsyncStorage.UpdateSettings | src/utils/storage.js:70-80 | result and new store are exactly `UpdateSettingsStep` of the old store |

## Left out

- Pixel rendering in `drawPage`: the float transform, `Matrix`, `RectI`, the scale factors, `AndroidDrawDevice` and the bitmap. A paint is a `RenderCall` naming the display list, the base zoom and the tile.
- Locking and cancellation. The `synchronized` methods and the `Cookie` are out; the model treats calls as sequential. `textSelection` is not `synchronized`, so a call to it can interleave with the other methods; that race is not modelled.
- The MuPDF engine itself (parsing, layout, structured text, bookmarks). Every engine question is a closure of `MuPdfEngine.Engine`.
- `getTitle`, `needsPassword`, `resolveLink` and the `countPages`/`isReflowable` getters of `MuPDFCore`. They only forward to the engine.
- `getPageLinks`, `searchPage` and `textSelection` of `MuPDFCore` are not modelled. Each calls `gotoPage` first (MuPDFCore.java lines 181, 190 and 254), so each moves the page slot exactly as `PageSession.GotoPage` does, releasing the resident page and display list on a miss. That effect is not modelled. Neither are the engine queries that follow.
- `GetWholePdfText`: the loop's page handles are local; their release is not logged.
- `PDFReaderViewController.JumpToSavedPosition`: requires a non-negative index when the index is below the list length. The view that calls it passes only non-negative indices, and a negative one would trap on the array access.
- The document view of the Android activity (`ReaderView`) is not part of this model. `displayedViewIndex = i` is taken to report `onMoveToChild(i)` at once for a valid page index and to do nothing otherwise.
- `ReaderActivity.PdfReaderActivity.constructor`: requires the intent extras to be at least -1 (absent values are -1).
- `AndroidReader.ResizedLayout`: requires a positive display density.
- Text-to-speech engines, ML Kit language identification and voice selection. Each `speak` call is an entry in the `spoken` log; language and voice are not modelled.
- Android speech interruption. Every `speak` uses `TextToSpeech.QUEUE_FLUSH` (PdfReaderActivity.kt line 534), so it cuts off the utterance still playing. Pause (`changeMediaStatus`) and `restartMedia` call `tts.stop()` through `stopTTS` (lines 673, 709 and 732-736). The `spoken` log records only the calls, not these cut-offs. At a page turn while playing, the new page's first sentence is logged, yet in the program the second sentence's `speak` flushes it at once.
- AndroidReader.ExtractPageNumber: the digits of `page\s+(\d+)` are the ASCII digits 0-9 in `MatchesAt`, `FirstMatch` and `CapturedDigits`. Android's `\d` is any Unicode decimal digit (`\p{Nd}`), and `toIntOrNull` reads such digits too, so a number written in another script matches in the program but not in the model. The letter case of "page" is folded for ASCII letters only. Whitespace (`IsRegexSpace`) follows Android's `[\t\n\f\r\p{Z}]`.
- Android speech order. `speakTTS` speaks from the language-identification callback. The model takes that callback to run at once and in call order.
- `BreakIterator` and `NLTokenizer`. Each is a parameter from a text to its segments.
- Handler and `DispatchQueue` delays (0.05 s, 0.5 s, 1 s) and the main-queue hops of `jumpToPage` and `jumpToSavedPosition`. The delayed work runs at once.
- The iOS item's text range, PDFKit highlight annotations and auto-scrolling. They only drive highlighting.
- The Android initial highlight, toolbar, buttons, dialogs and toasts.
- The iOS speech-rate mapping, the speed sheet, the voice toggle, bookmarks, the page label and saving the last page on exit.
- `IosPlayer.Progress`: computed over exact reals rather than 32-bit floats.
- `storage.js`: numbers are integers. Floats, NaN and the order of object members are not modelled.
- `Date.now()` and `toISOString()`: the time and the timestamp are parameters of `SavePDF`.
- A failing `AsyncStorage.setItem` is not modelled: every write succeeds.
- A stored text that is not a JSON value at the top level is read as unreadable.
- The password dialog, file picking and the Expo bridge modules.

## Findings

| source | as written | input that shows it | evidently intended | confidence | as-written member | corrected member |
|---|---|---|---|---|---|---|
| modules/pdf-reader/android/src/main/java/expo/modules/pdfreader/PdfReaderActivity.kt:417-422 | with unknown size, the buffer is dropped only when the read filled the whole 8 MiB limit | a stream of unknown size whose first `read` returns 4 of its 10 bytes: the 4-byte prefix is opened as the whole file | keep the buffer only when the read reached the end of the stream | medium, not executed | AndroidReader.OpenCoreKeepsShortRead | AndroidReader.OpenCoreSourceCheckedComplete |
| modules/pdf-reader/android/src/main/java/expo/modules/pdfreader/PdfReaderActivity.kt:62 | `lastTTSPage` starts at 0 while a resumed session starts on page lastPage - 1 >= 1, so the first `readPageText` resets the sentence index | lastPage = 3, lastSIndex = 2 on a page with three sentences: the first play speaks sentence 0 | the first play speaks the saved sentence (index lastSIndex) | medium, not executed | AndroidReader.ResumeIndexDiscarded | AndroidReader.ResumeIndexKept |
| modules/pdf-reader/ios/PDFReaderViewController.swift:418 | `restartReading` reads `items[0]` without checking the list | pressing restart on a document without text (no sentences) traps | move the cursor home and skip the page jump when the list is empty | high, not executed | IosPlayer.RestartReadingTrapsOnEmptyList | IosPlayer.RestartReadingAgrees |
| modules/pdf-reader/android/src/main/java/expo/modules/pdfreader/PdfReaderActivity.kt:674-675 | while playing, moving the view to page 0 reports `onMoveToChild(0)`, which reads page 0 with the old sentence index before the restart's forced reset; an index at the end of page 0 turns the page | a two-page document, playing, restart pressed while the last sentence of page 0 is spoken: the restart ends on page 1 and reads it from its first sentence | a restart always reads page 0 from its first sentence | medium, not executed | AndroidReader.RestartMediaSkipsFirstPage | AndroidReader.RestartMediaCheckedStartsOver |
