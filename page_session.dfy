/** The page session of `MuPDFCore` as a value, and its operations as
    functions from one session value to the next.

    `Session` holds exactly the fields the Java class updates: the document
    (absent once destroyed), the cached outline, the page count and
    reflowable flag, the single-slot page cache (`currentPage`, `page`,
    `displayList`, `pageWidth`, `pageHeight`), the applied layout, and the
    ordered log of engine handles released so far.  Each operation returns a
    `Step`: the next session and what the call returned or that it threw. */
module PageSession {
  import opened MuPdfEngine

  datatype Session = Session(
    doc: Option<DocState>,
    outline: Option<seq<OutlineItem>>,
    pageCount: int,
    reflowable: bool,
    currentPage: int,
    page: Option<PageRef>,
    pageWidth: real,
    pageHeight: real,
    displayList: Option<PageRef>,
    layout: Layout,
    released: seq<Resource>)

  datatype Step<T> = Step(next: Session, out: Outcome<T>)

  /** The tile a caller asked `drawPage` to paint: the target page size in
      pixels and the patch rectangle inside it. */
  datatype Patch = Patch(pageW: int, pageH: int, patchX: int, patchY: int, patchW: int, patchH: int)

  /** One run of a display list: which list, the base zoom of the transform,
      and the requested tile.  The pixels it produces are the engine's. */
  datatype RenderCall = RenderCall(list: PageRef, zoom: int, patch: Patch)

  /** The rendering resolution fixed by the constructor. */
  const Resolution := 160

  /** The base zoom of the render transform: the integer quotient of the
      resolution by 72 points per inch, taken before conversion to float. */
  function BaseZoom(): (z: int)
    ensures z == 2 && z * 72 <= Resolution < (z + 1) * 72
  {
    Resolution / 72
  }

  /** The session's consistency: the display list, when present, was built
      from the resident page; a destroyed session holds no handles; the stored
      layout is the document's and the page count is the engine's count for
      it; the stored size is the resident page's bounds; and a page number
      other than -1 in the slot names the resident page, loaded under the
      current layout. */
  ghost predicate Inv(e: Engine, s: Session) {
    && (s.displayList.Some? ==> s.displayList == s.page)
    && (s.doc.None? ==> s.page.None? && s.displayList.None?)
    && (s.doc.Some? ==> s.doc.value.layout == s.layout && s.pageCount == e.countPages(s.doc.value))
    && (s.page.Some? ==>
          var b := e.loadPage(s.page.value.doc, s.page.value.index);
          b.Some? && s.pageWidth == b.value.x1 - b.value.x0 && s.pageHeight == b.value.y1 - b.value.y0)
    && (s.currentPage != -1 && s.doc.Some? ==>
          s.page.Some? && s.page.value.index == s.currentPage && s.page.value.doc.layout == s.layout)
  }

  /** The private constructor: apply the default layout to the freshly opened
      document, read the page count and reflowable flag, empty cache. */
  function Open(e: Engine, initial: DocState): Session {
    var d := initial.(layout := DefaultLayout);
    Session(Some(d), None, e.countPages(d), e.isReflowable(d), -1, None, 0.0, 0.0, None, DefaultLayout, [])
  }

  /** The page number `gotoPage` settles on: the upper bound is tested first,
      so with no pages every non-negative request becomes -1. */
  function Clamp(n: int, pageCount: int): (p: int)
    ensures pageCount > 0 ==> 0 <= p < pageCount
    ensures 0 <= n < pageCount ==> p == n
    ensures n >= pageCount ==> p == pageCount - 1
    ensures n < 0 && pageCount >= 0 ==> p == 0
  {
    if n > pageCount - 1 then pageCount - 1
    else if n < 0 then 0
    else n
  }

  /** The release log after a cache miss: `gotoPage` destroys the page
      first, then its display list, each only if present. */
  function MissReleases(s: Session): seq<Resource> {
    var afterPage := if s.page.Some? then s.released + [PageOf(s.page.value)] else s.released;
    if s.displayList.Some? then afterPage + [DisplayListOf(s.displayList.value)] else afterPage
  }

  /** The slot emptied by a cache miss: old handles released (see
      `MissReleases`), no page, no display list, size 0x0, number -1. */
  function EmptySlot(s: Session): Session {
    s.(page := None, displayList := None, pageWidth := 0.0, pageHeight := 0.0,
       currentPage := -1, released := MissReleases(s))
  }

  /** Loading page `p` into an emptied slot: with no document the slot stays
      empty but takes the number; a load that throws leaves it at -1. */
  function LoadSlot(e: Engine, t: Session, p: int): Step<()> {
    if t.doc.None? then Step(t.(currentPage := p), Returned(()))
    else
      match e.loadPage(t.doc.value, p)
      case None => Step(t, Threw)
      case Some(b) =>
        Step(t.(page := Some(PageRef(p, t.doc.value)), pageWidth := b.x1 - b.x0,
                pageHeight := b.y1 - b.y0, currentPage := p), Returned(()))
  }

  /** `gotoPage`: a hit leaves everything as it is; a miss empties the slot,
      then loads the clamped page when a document is open. */
  function GotoPage(e: Engine, s: Session, n: int): Step<()> {
    var p := Clamp(n, s.pageCount);
    if p == s.currentPage then Step(s, Returned(()))
    else LoadSlot(e, EmptySlot(s), p)
  }

  /** `getPageSize`: switch to the page, then report the slot's size. */
  function PageSize(e: Engine, s: Session, n: int): Step<(real, real)> {
    var g := GotoPage(e, s, n);
    if g.out.Threw? then Step(g.next, Threw)
    else Step(g.next, Returned((g.next.pageWidth, g.next.pageHeight)))
  }

  /** `layout`: unchanged parameters return the old page number and touch
      nothing.  Otherwise the parameters are stored first (so they are kept
      even when a destroyed session then throws), the document is re-laid
      out, the slot number is invalidated, the page count re-read, the outline
      reloaded, and the old page's bookmark is resolved under the new layout.
      The resident page and display list are not released. */
  function Reflow(e: Engine, s: Session, oldPage: int, w: int, h: int, em: int): Step<int> {
    var l := Layout(w, h, em);
    if l == s.layout then Step(s, Returned(oldPage))
    else if s.doc.None? then Step(s.(layout := l), Threw)
    else
      var d := s.doc.value;
      var d' := d.(layout := l);
      Step(s.(layout := l, doc := Some(d'), currentPage := -1, pageCount := e.countPages(d'),
              outline := e.loadOutline(d')),
           Returned(e.remap(d, oldPage, d')))
  }

  /** `drawPage` (and `updatePage`, which only calls it), without the pixel
      arithmetic: switch to the page, build the display list if there is a
      page and no list yet (a failed build leaves none), and run the list only
      when both exist. */
  function DrawPage(e: Engine, s: Session, n: int, patch: Patch): Step<Option<RenderCall>> {
    var g := GotoPage(e, s, n);
    if g.out.Threw? then Step(g.next, Threw)
    else
      var t := g.next;
      var t' := if t.displayList.None? && t.page.Some?
                then t.(displayList := if e.buildsDisplayList(t.page.value) then t.page else None)
                else t;
      if t'.displayList.None? || t'.page.None? then Step(t', Returned(None))
      else Step(t', Returned(Some(RenderCall(t'.displayList.value, BaseZoom(), patch))))
  }

  /** `hasOutline`: load only while no outline is cached; a failed load (also
      the null-pointer failure on a destroyed session) is caught. */
  function HasOutline(e: Engine, s: Session): Step<bool> {
    if s.outline.Some? then Step(s, Returned(true))
    else
      var o := if s.doc.None? then None else e.loadOutline(s.doc.value);
      Step(s.(outline := o), Returned(o.Some?))
  }

  /** `authenticatePassword`: ask the engine, then re-read page count and
      reflowable flag whatever the answer.  An accepted password unlocks the
      document; a rejected one leaves its state as it was. */
  function Authenticate(e: Engine, s: Session, password: string): Step<bool> {
    if s.doc.None? then Step(s, Threw)
    else
      var d := s.doc.value;
      var ok := e.authenticate(d, password);
      var d' := d.(unlocked := d.unlocked || ok);
      Step(s.(doc := Some(d'), pageCount := e.countPages(d'), reflowable := e.isReflowable(d')), Returned(ok))
  }

  /** `getPageText`: switch to the page; no resident page or a failed
      extraction gives the empty string. */
  function PageText(e: Engine, s: Session, n: int): Step<string> {
    var g := GotoPage(e, s, n);
    if g.out.Threw? then Step(g.next, Threw)
    else if g.next.page.None? then Step(g.next, Returned(""))
    else Step(g.next, Returned(e.pageText(g.next.page.value).GetOr("")))
  }

  /** Whether page `i` of document state `d` loads and yields its text. */
  predicate PageExtracts(e: Engine, d: DocState, i: int) {
    e.loadPage(d, i).Some? && e.pageText(PageRef(i, d)).Some?
  }

  /** The text of the first `n` pages, each followed by a newline, or `None`
      as soon as one of them fails. */
  function PagesText(e: Engine, d: DocState, n: nat): Option<string>
    decreases n
  {
    if n == 0 then Some("")
    else
      match PagesText(e, d, n - 1)
      case None => None
      case Some(prefix) =>
        if !PageExtracts(e, d, n - 1) then None
        else Some(prefix + e.pageText(PageRef(n - 1, d)).value + "\n")
  }

  /** `getWholePdfText`: every page's text in order, or "" when any page
      fails (or the session is destroyed).  It uses its own page handles and
      so is a function of the document alone. */
  function WholePdfText(e: Engine, s: Session): string {
    if s.doc.None? then ""
    else PagesText(e, s.doc.value, e.countPages(s.doc.value)).GetOr("")
  }

  /** `onDestroy`: release display list, then page, then document, each only
      if present, and forget them. */
  function Destroy(s: Session): Session {
    var released :=
      (if s.displayList.Some? then [DisplayListOf(s.displayList.value)] else [])
      + (if s.page.Some? then [PageOf(s.page.value)] else [])
      + (if s.doc.Some? then [DocumentHandle] else []);
    s.(displayList := None, page := None, doc := None, released := s.released + released)
  }

  // ---------------------------------------------------------------------
  // Opening

  lemma OpenEstablishesInv(e: Engine, initial: DocState)
    ensures var s := Open(e, initial);
      && Inv(e, s) && s.layout == DefaultLayout && s.currentPage == -1
      && s.page.None? && s.displayList.None? && s.outline.None?
      && s.pageCount == e.countPages(initial.(layout := DefaultLayout))
  {
  }

  // ---------------------------------------------------------------------
  // Page switching

  /** A request that clamps to the page already in the slot changes nothing. */
  lemma GotoPageHit(e: Engine, s: Session, n: int)
    requires Clamp(n, s.pageCount) == s.currentPage
    ensures GotoPage(e, s, n) == Step(s, Returned(()))
  {
  }

  /** A miss releases the old page and then the old display list, and leaves
      the slot holding exactly the clamped page (or nothing, with -1, when the
      load throws; or nothing, with size 0x0, when no document is open). */
  lemma GotoPageMiss(e: Engine, s: Session, n: int)
    requires Clamp(n, s.pageCount) != s.currentPage
    ensures var p := Clamp(n, s.pageCount);
      var t := GotoPage(e, s, n).next;
      && t.released == MissReleases(s)
      && t.displayList.None?
      && t.doc == s.doc && t.layout == s.layout && t.pageCount == s.pageCount && t.outline == s.outline
      && (s.doc.None? ==> t.page.None? && t.currentPage == p && t.pageWidth == 0.0 && t.pageHeight == 0.0)
      && (s.doc.Some? && e.loadPage(s.doc.value, p).None? ==>
            GotoPage(e, s, n).out.Threw? && t.page.None? && t.currentPage == -1)
      && (s.doc.Some? && e.loadPage(s.doc.value, p).Some? ==>
            var b := e.loadPage(s.doc.value, p).value;
            GotoPage(e, s, n).out.Returned? && t.page == Some(PageRef(p, s.doc.value)) && t.currentPage == p
            && t.pageWidth == b.x1 - b.x0 && t.pageHeight == b.y1 - b.y0)
  {
  }

  /** After a successful switch of an open session with pages, the slot holds
      the clamped page, within range, loaded under the current layout. */
  lemma ResidencyAfterGoto(e: Engine, s: Session, n: int)
    requires Inv(e, s) && s.doc.Some? && s.pageCount > 0
    requires GotoPage(e, s, n).out.Returned?
    ensures var t := GotoPage(e, s, n).next;
      var p := Clamp(n, s.pageCount);
      && 0 <= p < s.pageCount && t.currentPage == p
      && t.page.Some? && t.page.value.index == p && t.page.value.doc.layout == s.layout
  {
  }

  lemma GotoPagePreservesInv(e: Engine, s: Session, n: int)
    requires Inv(e, s)
    ensures Inv(e, GotoPage(e, s, n).next)
  {
  }

  lemma PageSizeReportsSlot(e: Engine, s: Session, n: int)
    requires Inv(e, s)
    ensures var r := PageSize(e, s, n);
      && r.next == GotoPage(e, s, n).next && Inv(e, r.next)
      && (r.out.Returned? ==> r.out.value == (r.next.pageWidth, r.next.pageHeight))
  {
  }

  // ---------------------------------------------------------------------
  // Reflow

  /** Unchanged layout parameters: the old page number comes back and no
      field changes. */
  lemma ReflowUnchanged(e: Engine, s: Session, oldPage: int)
    ensures Reflow(e, s, oldPage, s.layout.w, s.layout.h, s.layout.em) == Step(s, Returned(oldPage))
  {
  }

  /** Changed parameters on an open session: the parameters are stored, the
      slot number invalidated, the count recomputed and the outline reloaded
      under the new layout, the bookmarked page returned, and no handle
      released. */
  lemma ReflowChanged(e: Engine, s: Session, oldPage: int, w: int, h: int, em: int)
    requires s.doc.Some? && Layout(w, h, em) != s.layout
    ensures var r := Reflow(e, s, oldPage, w, h, em);
      var d' := s.doc.value.(layout := Layout(w, h, em));
      && r.next.layout == Layout(w, h, em) && r.next.doc == Some(d')
      && r.next.currentPage == -1
      && r.next.pageCount == e.countPages(d')
      && r.next.outline == e.loadOutline(d')
      && r.out == Returned(e.remap(s.doc.value, oldPage, d'))
      && r.next.page == s.page && r.next.displayList == s.displayList
      && r.next.released == s.released && r.next.reflowable == s.reflowable
  {
  }

  lemma ReflowPreservesInv(e: Engine, s: Session, oldPage: int, w: int, h: int, em: int)
    requires Inv(e, s)
    ensures Inv(e, Reflow(e, s, oldPage, w, h, em).next)
  {
  }

  // ---------------------------------------------------------------------
  // Rendering

  /** `drawPage` builds a display list only when none exists and a page is
      resident, keeps one it already has, and paints only when both exist,
      always at the base zoom. */
  lemma DrawPageControl(e: Engine, s: Session, n: int, patch: Patch)
    requires Inv(e, s)
    ensures var g := GotoPage(e, s, n);
      var r := DrawPage(e, s, n, patch);
      && Inv(e, r.next)
      && (g.out.Threw? ==> r == Step(g.next, Threw))
      && (g.out.Returned? ==>
            && r.next.page == g.next.page
            && r.next.released == g.next.released
            && (g.next.displayList.Some? ==> r.next == g.next)
            && (g.next.page.None? ==> r == Step(g.next, Returned(None)))
            && (g.next.displayList.None? && g.next.page.Some? ==>
                  r.next.displayList == (if e.buildsDisplayList(g.next.page.value) then g.next.page else None))
            && (r.out.value.Some? <==> r.next.displayList.Some?)
            && (r.out.value.Some? ==> r.out.value.value == RenderCall(r.next.page.value, 2, patch)))
  {
    GotoPagePreservesInv(e, s, n);
    var g := GotoPage(e, s, n);
    if g.out.Returned? {
      var t := g.next;
      assert Inv(e, t);
      var z := BaseZoom();
    }
  }

  /** Rendering the same tile twice with no call in between paints the same
      list with the same transform, and the second call changes nothing. */
  lemma DrawPageRepeatable(e: Engine, s: Session, n: int, patch: Patch)
    requires Inv(e, s)
    requires DrawPage(e, s, n, patch).out.Returned?
    ensures var first := DrawPage(e, s, n, patch);
      DrawPage(e, first.next, n, patch) == first
  {
  }

  // ---------------------------------------------------------------------
  // Outline and password

  /** `hasOutline` answers whether an outline is cached after the call and
      asks the engine only when none was cached.  A repeat call asks again
      while none is cached; the engine being a fixed function, it gets the
      same answer, so the repeat agrees with the first call and changes
      nothing more. */
  lemma HasOutlineCaches(e: Engine, s: Session)
    ensures var r := HasOutline(e, s);
      && r.out == Returned(r.next.outline.Some?)
      && (s.outline.Some? ==> r.next == s)
      && r.next.(outline := s.outline) == s
      && HasOutline(e, r.next) == (if r.out.value then Step(r.next, r.out) else Step(r.next, Returned(false)))
  {
  }

  /** Page count and reflowable flag are re-read whether or not the password
      is accepted; a rejected password leaves the count where it was. */
  lemma AuthenticateRereads(e: Engine, s: Session, password: string)
    requires Inv(e, s) && s.doc.Some?
    ensures var r := Authenticate(e, s, password);
      && Inv(e, r.next)
      && r.out == Returned(e.authenticate(s.doc.value, password))
      && r.next.pageCount == e.countPages(r.next.doc.value)
      && r.next.reflowable == e.isReflowable(r.next.doc.value)
      && (!r.out.value ==> r.next.pageCount == s.pageCount && r.next.doc == s.doc)
      && r.next.page == s.page && r.next.currentPage == s.currentPage
  {
  }

  // ---------------------------------------------------------------------
  // Text

  /** `getPageText` changes the session exactly as `gotoPage` does, and
      degrades to "" when no page is resident or extraction fails. */
  lemma PageTextDegrades(e: Engine, s: Session, n: int)
    requires Inv(e, s)
    ensures var r := PageText(e, s, n);
      && r.next == GotoPage(e, s, n).next
      && (r.out.Returned? && r.next.page.None? ==> r.out.value == "")
      && (r.out.Returned? && r.next.page.Some? && e.pageText(r.next.page.value).None? ==> r.out.value == "")
      && (r.out.Returned? && r.next.page.Some? && e.pageText(r.next.page.value).Some? ==>
            r.out.value == e.pageText(r.next.page.value).value)
  {
  }

  /** All or nothing: the first `n` pages produce text exactly when every one
      of them loads and extracts. */
  lemma {:induction false} PagesTextAllOrNothing(e: Engine, d: DocState, n: nat)
    ensures PagesText(e, d, n).Some? <==> forall i :: 0 <= i < n ==> PageExtracts(e, d, i)
  {
    if n > 0 {
      PagesTextAllOrNothing(e, d, n - 1);
    }
  }

  /** Page order: the text of the first `m` pages is a prefix of the text of
      the first `n >= m` pages. */
  lemma {:induction false} PagesTextPrefix(e: Engine, d: DocState, m: nat, n: nat)
    requires m <= n && PagesText(e, d, n).Some?
    ensures PagesText(e, d, m).Some?
    ensures PagesText(e, d, m).value <= PagesText(e, d, n).value
  {
    if m < n {
      PagesTextPrefix(e, d, m, n - 1);
      var p := PagesText(e, d, n - 1).value;
      assert PagesText(e, d, n).value == p + e.pageText(PageRef(n - 1, d)).value + "\n";
    }
  }

  /** Page `i`'s text followed by a newline sits right after the text of the
      pages before it. */
  lemma PageTextAt(e: Engine, d: DocState, n: nat, i: nat)
    requires i < n && PagesText(e, d, n).Some?
    ensures PagesText(e, d, i).Some? && PageExtracts(e, d, i)
    ensures var start := |PagesText(e, d, i).value|;
      var t := e.pageText(PageRef(i, d)).value;
      start + |t| + 1 <= |PagesText(e, d, n).value|
      && PagesText(e, d, n).value[start..start + |t| + 1] == t + "\n"
  {
    PagesTextPrefix(e, d, i + 1, n);
    var p := PagesText(e, d, i).value;
    var t := e.pageText(PageRef(i, d)).value;
    var whole := PagesText(e, d, n).value;
    var q := PagesText(e, d, i + 1).value;
    assert q == p + t + "\n";
    assert q <= whole;
    assert whole[|p|..|p| + |t| + 1] == q[|p|..|p| + |t| + 1];
  }

  /** `getWholePdfText` is "" when any page fails and otherwise the text of
      every page in order. */
  lemma WholePdfTextAllOrNothing(e: Engine, s: Session)
    requires s.doc.Some?
    ensures var d := s.doc.value;
      (exists i :: 0 <= i < e.countPages(d) && !PageExtracts(e, d, i)) ==> WholePdfText(e, s) == ""
    ensures var d := s.doc.value;
      (forall i :: 0 <= i < e.countPages(d) ==> PageExtracts(e, d, i)) ==>
        PagesText(e, d, e.countPages(d)) == Some(WholePdfText(e, s))
  {
    PagesTextAllOrNothing(e, s.doc.value, e.countPages(s.doc.value));
  }

  // ---------------------------------------------------------------------
  // Teardown

  /** Teardown releases display list, then page, then document, leaves no
      handle behind, and a second teardown does nothing. */
  lemma DestroyOrderAndIdempotence(e: Engine, s: Session)
    requires Inv(e, s) && s.doc.Some? && s.displayList.Some?
    ensures Destroy(s).released == s.released + [DisplayListOf(s.page.value), PageOf(s.page.value), DocumentHandle]
    ensures Destroy(Destroy(s)) == Destroy(s)
    ensures Inv(e, Destroy(s))
  {
  }

  lemma DestroyPreservesInv(e: Engine, s: Session)
    requires Inv(e, s)
    ensures var t := Destroy(s);
      Inv(e, t) && t.doc.None? && t.page.None? && t.displayList.None? && Destroy(t) == t
      && s.released <= t.released
  {
  }
}
