/** The MuPDF document engine as the page session sees it.

    The engine itself (parsing, pagination, rasterisation, structured text) is
    not modelled: every question the session asks it is a total function held
    in an `Engine` value, so that the session's behaviour can be stated for
    every engine at once.  An engine call that can throw returns an `Option`,
    `None` standing for the exception (or, for `loadOutline`, for a null
    outline, which the session treats the same way). */
module MuPdfEngine {

  datatype Option<+T> = None | Some(value: T) {
    function GetOr(default: T): T {
      match this
      case Some(v) => v
      case None => default
    }
  }

  /** Layout parameters handed to `Document.layout`: width, height, em size. */
  datatype Layout = Layout(w: int, h: int, em: int)

  /** The "A Format" pocket-book layout the session applies when it opens. */
  const DefaultLayout := Layout(312, 504, 10)

  /** Page bounds as `Page.getBounds` reports them. */
  datatype Rect = Rect(x0: real, y0: real, x1: real, y1: real)

  /** The mutable part of a MuPDF `Document` that the session changes:
      the applied layout and whether a password has been accepted. */
  datatype DocState = DocState(layout: Layout, unlocked: bool)

  /** One entry of a document outline. */
  datatype OutlineItem = OutlineItem(title: string, page: int)

  /** A loaded page handle: the page number it was loaded for and the
      document state at load time (a later re-layout does not change it). */
  datatype PageRef = PageRef(index: int, doc: DocState)

  /** An engine handle the session has released with `destroy()`. */
  datatype Resource = DisplayListOf(listPage: PageRef) | PageOf(page: PageRef) | DocumentHandle

  /** The engine's answers, one total function per question.
      - countPages: `Document.countPages()` under a document state;
      - isReflowable: `Document.isReflowable()`;
      - authenticate: `Document.authenticatePassword(password)`;
      - remap: the page number that the bookmark taken at a page under the
        first state resolves to under the second state
        (`pageNumberFromLocation(findBookmark(makeBookmark(locationFromPageNumber(p))))`);
      - loadOutline: `Document.loadOutline()`, `None` when null or when it throws;
      - loadPage: the bounds of `Document.loadPage(i)`, `None` when it throws;
      - buildsDisplayList: whether `Page.toDisplayList()` succeeds;
      - pageText: `Page.toStructuredText().asText()`, `None` when it throws. */
  datatype Engine = Engine(
    countPages: DocState -> nat,
    isReflowable: DocState -> bool,
    authenticate: (DocState, string) -> bool,
    remap: (DocState, int, DocState) -> int,
    loadOutline: DocState -> Option<seq<OutlineItem>>,
    loadPage: (DocState, int) -> Option<Rect>,
    buildsDisplayList: PageRef -> bool,
    pageText: PageRef -> Option<string>
  )

  /** The outcome of a session call: a returned value, or an exception that
      escaped to the caller. */
  datatype Outcome<+T> = Returned(value: T) | Threw
}
