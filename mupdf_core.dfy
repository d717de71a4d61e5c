/** `MuPDFCore`: the page-session object itself, with the Java class's
    fields, updated in place by its methods.  Each method is proved to move
    the session exactly as the corresponding function of `PageSession` says,
    and to keep the session invariant `PageSession.Inv`. */
module MuPdfCore {
  import E = MuPdfEngine
  import S = PageSession

  class MuPDFCore {
    const engine: E.Engine
    const resolution: int
    var doc: E.Option<E.DocState>
    var outline: E.Option<seq<E.OutlineItem>>
    var pageCount: int
    var reflowable: bool
    var currentPage: int
    var page: E.Option<E.PageRef>
    var pageWidth: real
    var pageHeight: real
    var displayList: E.Option<E.PageRef>
    var layoutW: int
    var layoutH: int
    var layoutEM: int
    /** The engine handles destroyed so far, in the order of the calls. */
    var released: seq<E.Resource>

    /** The session these fields hold. */
    function State(): S.Session
      reads this
    {
      S.Session(doc, outline, pageCount, reflowable, currentPage, page, pageWidth, pageHeight,
                displayList, E.Layout(layoutW, layoutH, layoutEM), released)
    }

    ghost predicate Valid()
      reads this
    {
      resolution == S.Resolution && S.Inv(engine, State())
    }

    /** Wraps a document the engine has just opened (from a buffer or a
        stream): default layout, page count, reflowable flag, resolution 160,
        no page in the slot. */
    constructor (e: E.Engine, initial: E.DocState)
      ensures Valid() && engine == e
      ensures State() == S.Open(e, initial)
    {
      engine := e;
      resolution := 160;
      layoutW, layoutH, layoutEM := 312, 504, 10;
      var d := initial.(layout := E.Layout(312, 504, 10));
      doc := E.Some(d);
      outline := E.None;
      pageCount := e.countPages(d);
      reflowable := e.isReflowable(d);
      currentPage := -1;
      page, displayList := E.None, E.None;
      pageWidth, pageHeight := 0.0, 0.0;
      released := [];
    }

    method Layout(oldPage: int, w: int, h: int, em: int) returns (r: E.Outcome<int>)
      requires Valid()
      modifies this`layoutW, this`layoutH, this`layoutEM, this`doc, this`currentPage, this`pageCount, this`outline
      ensures Valid()
      ensures S.Step(State(), r) == S.Reflow(engine, old(State()), oldPage, w, h, em)
    {
      if w != layoutW || h != layoutH || em != layoutEM {
        r := Relayout(oldPage, w, h, em);
        return;
      }
      return E.Returned(oldPage);
    }

    /** The changed-parameters half of `layout`: store the parameters, then
        re-lay out the document and answer where the old page went. */
    method Relayout(oldPage: int, w: int, h: int, em: int) returns (r: E.Outcome<int>)
      requires Valid() && E.Layout(w, h, em) != E.Layout(layoutW, layoutH, layoutEM)
      modifies this`layoutW, this`layoutH, this`layoutEM, this`doc, this`currentPage, this`pageCount, this`outline
      ensures Valid()
      ensures S.Step(State(), r) == S.Reflow(engine, old(State()), oldPage, w, h, em)
    {
      S.ReflowPreservesInv(engine, State(), oldPage, w, h, em);
      layoutW := w;
      layoutH := h;
      layoutEM := em;
      if doc.None? {
        return E.Threw;
      }
      var d := doc.value;
      var d' := d.(layout := E.Layout(layoutW, layoutH, layoutEM));
      ApplyLayout(d');
      return E.Returned(engine.remap(d, oldPage, d'));
    }

    /** `doc.layout(...)` and what it invalidates: the slot number, the page
        count and the outline are re-read under the new document state. */
    method ApplyLayout(d': E.DocState)
      modifies this`doc, this`currentPage, this`pageCount, this`outline
      ensures State() == old(State()).(doc := E.Some(d'), currentPage := -1,
                                       pageCount := engine.countPages(d'), outline := engine.loadOutline(d'))
    {
      doc := E.Some(d');
      currentPage := -1;
      pageCount := engine.countPages(d');
      outline := E.None;
      outline := engine.loadOutline(d');
    }

    method GotoPage(pageNum: int) returns (r: E.Outcome<()>)
      requires Valid()
      modifies this`released, this`page, this`displayList, this`pageWidth, this`pageHeight, this`currentPage
      ensures Valid()
      ensures S.Step(State(), r) == S.GotoPage(engine, old(State()), pageNum)
    {
      S.GotoPagePreservesInv(engine, State(), pageNum);
      var p := pageNum;
      if p > pageCount - 1 {
        p := pageCount - 1;
      } else if p < 0 {
        p := 0;
      }
      if p == currentPage {
        return E.Returned(());
      }
      EmptySlot();
      r := LoadSlot(p);
    }

    /** The first half of a cache miss: destroy the page, then its display
        list, and clear the slot. */
    method EmptySlot()
      modifies this`released, this`page, this`displayList, this`pageWidth, this`pageHeight, this`currentPage
      ensures State() == S.EmptySlot(old(State()))
    {
      var log := released;
      if page.Some? {
        log := log + [E.PageOf(page.value)];
      }
      if displayList.Some? {
        log := log + [E.DisplayListOf(displayList.value)];
      }
      released, page, displayList := log, E.None, E.None;
      pageWidth, pageHeight := 0.0, 0.0;
      currentPage := -1;
    }

    /** The second half of a cache miss: load page `p` when a document is
        open, then record its number (not reached when the load throws). */
    method LoadSlot(p: int) returns (r: E.Outcome<()>)
      modifies this`page, this`pageWidth, this`pageHeight, this`currentPage
      ensures S.Step(State(), r) == S.LoadSlot(engine, old(State()), p)
    {
      if doc.Some? {
        var b := engine.loadPage(doc.value, p);
        if b.None? {
          return E.Threw;
        }
        page := E.Some(E.PageRef(p, doc.value));
        pageWidth := b.value.x1 - b.value.x0;
        pageHeight := b.value.y1 - b.value.y0;
      }
      currentPage := p;
      return E.Returned(());
    }

    method GetPageSize(pageNum: int) returns (r: E.Outcome<(real, real)>)
      requires Valid()
      modifies this`released, this`page, this`displayList, this`pageWidth, this`pageHeight, this`currentPage
      ensures Valid()
      ensures S.Step(State(), r) == S.PageSize(engine, old(State()), pageNum)
    {
      var g := GotoPage(pageNum);
      if g.Threw? {
        return E.Threw;
      }
      return E.Returned((pageWidth, pageHeight));
    }

    method OnDestroy()
      requires Valid()
      modifies this`released, this`displayList, this`page, this`doc
      ensures Valid()
      ensures State() == S.Destroy(old(State()))
    {
      var log := released;
      if displayList.Some? {
        log := log + [E.DisplayListOf(displayList.value)];
      }
      if page.Some? {
        log := log + [E.PageOf(page.value)];
      }
      if doc.Some? {
        log := log + [E.DocumentHandle];
      }
      released, displayList, page, doc := log, E.None, E.None, E.None;
    }

    /** Paints one tile; the answer is the display-list run it made, if any. */
    method DrawPage(pageNum: int, patch: S.Patch) returns (r: E.Outcome<E.Option<S.RenderCall>>)
      requires Valid()
      modifies this`released, this`page, this`displayList, this`pageWidth, this`pageHeight, this`currentPage
      ensures Valid()
      ensures S.Step(State(), r) == S.DrawPage(engine, old(State()), pageNum, patch)
    {
      var g := GotoPage(pageNum);
      if g.Threw? {
        return E.Threw;
      }
      if displayList.None? && page.Some? {
        if engine.buildsDisplayList(page.value) {
          displayList := page;
        } else {
          displayList := E.None;
        }
      }
      if displayList.None? || page.None? {
        return E.Returned(E.None);
      }
      var zoom := resolution / 72;
      return E.Returned(E.Some(S.RenderCall(displayList.value, zoom, patch)));
    }

    method UpdatePage(pageNum: int, patch: S.Patch) returns (r: E.Outcome<E.Option<S.RenderCall>>)
      requires Valid()
      modifies this`released, this`page, this`displayList, this`pageWidth, this`pageHeight, this`currentPage
      ensures Valid()
      ensures S.Step(State(), r) == S.DrawPage(engine, old(State()), pageNum, patch)
    {
      r := DrawPage(pageNum, patch);
    }

    method HasOutline() returns (r: bool)
      requires Valid()
      modifies this`outline
      ensures Valid()
      ensures S.Step(State(), E.Returned(r)) == S.HasOutline(engine, old(State()))
    {
      if outline.None? {
        if doc.Some? {
          outline := engine.loadOutline(doc.value);
        }
      }
      return outline.Some?;
    }

    method AuthenticatePassword(password: string) returns (r: E.Outcome<bool>)
      requires Valid()
      modifies this`doc, this`pageCount, this`reflowable
      ensures Valid()
      ensures S.Step(State(), r) == S.Authenticate(engine, old(State()), password)
    {
      if doc.None? {
        return E.Threw;
      }
      var authenticated := engine.authenticate(doc.value, password);
      doc := E.Some(doc.value.(unlocked := doc.value.unlocked || authenticated));
      pageCount := engine.countPages(doc.value);
      reflowable := engine.isReflowable(doc.value);
      return E.Returned(authenticated);
    }

    method GetPageText(pageNum: int) returns (r: E.Outcome<string>)
      requires Valid()
      modifies this`released, this`page, this`displayList, this`pageWidth, this`pageHeight, this`currentPage
      ensures Valid()
      ensures S.Step(State(), r) == S.PageText(engine, old(State()), pageNum)
    {
      var g := GotoPage(pageNum);
      if g.Threw? {
        return E.Threw;
      }
      if page.None? {
        return E.Returned("");
      }
      var text := engine.pageText(page.value);
      if text.None? {
        return E.Returned("");
      }
      return E.Returned(text.value);
    }

    /** Extracts every page with its own page handle, leaving the cache alone. */
    method GetWholePdfText() returns (allText: string)
      ensures allText == S.WholePdfText(engine, State())
    {
      if doc.None? {
        return "";
      }
      var d := doc.value;
      allText := "";
      var i := 0;
      while i < engine.countPages(d)
        invariant 0 <= i <= engine.countPages(d)
        invariant S.PagesText(engine, d, i) == E.Some(allText)
      {
        var bounds := engine.loadPage(d, i);
        var text := engine.pageText(E.PageRef(i, d));
        if bounds.None? || text.None? {
          assert S.PagesText(engine, d, i + 1).None?;
          if S.PagesText(engine, d, engine.countPages(d)).Some? {
            S.PagesTextPrefix(engine, d, i + 1, engine.countPages(d));
          }
          return "";
        }
        allText := allText + text.value + "\n";
        i := i + 1;
      }
    }
  }
}
