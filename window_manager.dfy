/**
 * Layout reconciliation: choose a display, split it into four tiles, and
 * bring one window per view to its tile, updating a window that already
 * exists and creating one (with its own storage directory) otherwise.
 *
 * The host windowing layer is a map from window label to window record.
 * The reconciler is specified by the functions `ApplyView`, `ApplyViews`
 * and `Reconcile`; the class `Host` runs the same steps imperatively.
 */
module WindowManager {
  import opened Wrappers
  import opened Text
  import opened Config

  // ---------------------------------------------------------------------
  // Displays and monitor selection
  // ---------------------------------------------------------------------

  /** A display as enumerated by the host: physical origin, size and an optional name. */
  datatype Display = Display(x: int, y: int, width: nat, height: nat, name: Option<string>)

  datatype ApplyError =
    | NoPrimaryMonitor
    | InvalidIndexValue
    | NoMonitorAtIndex(idx: nat)
    | NoMonitorNameContains(needle: string)
    | InvalidViewUrl

  /** The lower-cased name a display is matched by; a display without a name matches as "". */
  function NameKey(d: Display): string {
    ToLower(d.name.GetOr(""))
  }

  predicate NameMatches(d: Display, needle: string) {
    Contains(NameKey(d), needle)
  }

  /** Position of the first display, in enumeration order, whose name contains `needle`. */
  function FindByName(monitors: seq<Display>, needle: string): (r: Option<nat>)
    ensures r.Some? ==> r.value < |monitors| && NameMatches(monitors[r.value], needle)
    ensures r.Some? ==> forall j :: 0 <= j < r.value ==> !NameMatches(monitors[j], needle)
    ensures r.None? ==> forall j :: 0 <= j < |monitors| ==> !NameMatches(monitors[j], needle)
    decreases |monitors|
  {
    if |monitors| == 0 then None
    else if NameMatches(monitors[0], needle) then Some(0)
    else match FindByName(monitors[1..], needle)
      case None => None
      case Some(k) => Some(k + 1)
  }

  /** The display an apply targets, by the selector's policy. */
  function SelectMonitor(sel: MonitorSelector, monitors: seq<Display>, primary: Option<Display>)
    : (r: Result<Display, ApplyError>)
    ensures sel.mode == Primary ==>
      (r.Success? <==> primary.Some?) &&
      (r.Success? ==> r.value == primary.value) &&
      (r.Failure? ==> r.error == NoPrimaryMonitor)
    ensures sel.mode == Index ==>
      match ParseUsize(sel.value.GetOr("0"))
      case None => r == Failure(InvalidIndexValue)
      case Some(idx) =>
        (idx < |monitors| ==> r == Success(monitors[idx])) &&
        (idx >= |monitors| ==> r == Failure(NoMonitorAtIndex(idx)))
    ensures sel.mode == NameContains ==>
      var needle := ToLower(sel.value.GetOr(""));
      (r.Success? <==> exists i :: 0 <= i < |monitors| && NameMatches(monitors[i], needle)) &&
      (r.Success? ==> exists i :: 0 <= i < |monitors| && r.value == monitors[i] &&
                        NameMatches(monitors[i], needle) &&
                        forall j :: 0 <= j < i ==> !NameMatches(monitors[j], needle)) &&
      (r.Failure? ==> r.error == NoMonitorNameContains(needle))
  {
    match sel.mode
    case Primary =>
      if primary.Some? then Success(primary.value) else Failure(NoPrimaryMonitor)
    case Index =>
      (match ParseUsize(sel.value.GetOr("0"))
       case None => Failure(InvalidIndexValue)
       case Some(idx) =>
         if idx < |monitors| then Success(monitors[idx]) else Failure(NoMonitorAtIndex(idx)))
    case NameContains =>
      var needle := ToLower(sel.value.GetOr(""));
      match FindByName(monitors, needle)
      case Some(i) => Success(monitors[i])
      case None => Failure(NoMonitorNameContains(needle))
  }

  /** Index mode with no value means index 0: the first enumerated display, if any. */
  lemma IndexDefaultsToFirst(monitors: seq<Display>, primary: Option<Display>)
    ensures var r := SelectMonitor(MonitorSelector(Index, None), monitors, primary);
      (|monitors| > 0 ==> r == Success(monitors[0])) &&
      (|monitors| == 0 ==> r == Failure(NoMonitorAtIndex(0)))
  {
    ParseFormatRoundTrip(0);
  }

  /** Index mode with the decimal form of `i` selects exactly `monitors[i]`. */
  lemma IndexSelectsListed(monitors: seq<Display>, primary: Option<Display>, i: nat)
    requires i <= USIZE_MAX
    ensures var r := SelectMonitor(MonitorSelector(Index, Some(NatToString(i))), monitors, primary);
      (i < |monitors| ==> r == Success(monitors[i])) &&
      (i >= |monitors| ==> r == Failure(NoMonitorAtIndex(i)))
  {
    ParseFormatRoundTrip(i);
  }

  /** NameContains with no value has the empty needle: the first display wins, and only an empty list fails. */
  lemma EmptyNeedleSelectsFirst(monitors: seq<Display>, primary: Option<Display>)
    ensures var r := SelectMonitor(MonitorSelector(NameContains, None), monitors, primary);
      (|monitors| > 0 ==> r == Success(monitors[0])) &&
      (|monitors| == 0 ==> r == Failure(NoMonitorNameContains("")))
  {
    assert ToLower("") == "";
    if |monitors| > 0 {
      ContainsEmpty(NameKey(monitors[0]));
    }
  }

  /** Matching ignores case: the needle "DELL" finds a display named "Dell U2720Q". */
  lemma NameContainsIgnoresCase()
    ensures var dell := Display(0, 0, 2560, 1440, Some("Dell U2720Q"));
      SelectMonitor(MonitorSelector(NameContains, Some("DELL")), [dell], None) == Success(dell)
  {
    var dell := Display(0, 0, 2560, 1440, Some("Dell U2720Q"));
    var key := NameKey(dell);
    assert key[..4] == ToLower("DELL");
    assert ToLower("DELL") <= key;
  }

  // ---------------------------------------------------------------------
  // Tile geometry
  // ---------------------------------------------------------------------

  datatype Rect = Rect(x: int, y: int, width: nat, height: nat)

  /** The four tiles, in view order: top-left, top-right, bottom-left, bottom-right. */
  function Tiles(d: Display): seq<Rect> {
    var tileW, tileH := d.width / 2, d.height / 2;
    [ Rect(d.x, d.y, tileW, tileH),
      Rect(d.x + tileW, d.y, tileW, tileH),
      Rect(d.x, d.y + tileH, tileW, tileH),
      Rect(d.x + tileW, d.y + tileH, tileW, tileH) ]
  }

  predicate InRect(r: Rect, px: int, py: int) {
    r.x <= px < r.x + r.width && r.y <= py < r.y + r.height
  }

  predicate InDisplay(d: Display, px: int, py: int) {
    d.x <= px < d.x + d.width && d.y <= py < d.y + d.height
  }

  /** Every tile is half the display in each direction (rounded down) and lies inside it. */
  lemma TilesInsideDisplay(d: Display, k: nat, px: int, py: int)
    requires k < 4
    ensures |Tiles(d)| == 4
    ensures Tiles(d)[k].width == d.width / 2 && Tiles(d)[k].height == d.height / 2
    ensures InRect(Tiles(d)[k], px, py) ==> InDisplay(d, px, py)
  {
  }

  /** With even width and height the four tiles cover the display exactly, without overlap. */
  lemma TilesPartitionEven(d: Display, px: int, py: int)
    requires d.width % 2 == 0 && d.height % 2 == 0
    ensures InDisplay(d, px, py) <==> exists k :: 0 <= k < 4 && InRect(Tiles(d)[k], px, py)
    ensures forall k, k' :: 0 <= k < k' < 4 ==>
      !(InRect(Tiles(d)[k], px, py) && InRect(Tiles(d)[k'], px, py))
  {
    var t := Tiles(d);
    if InDisplay(d, px, py) {
      var col := if px < d.x + d.width / 2 then 0 else 1;
      var row := if py < d.y + d.height / 2 then 0 else 1;
      assert InRect(t[2 * row + col], px, py);
    }
  }

  /** With an odd width the right-most column of pixels lies in no tile. */
  lemma TilesOddWidthStrip(d: Display, py: int)
    requires d.width % 2 == 1
    ensures forall k :: 0 <= k < 4 ==> !InRect(Tiles(d)[k], d.x + d.width - 1, py)
  {
  }

  /** With an odd height the bottom row of pixels lies in no tile. */
  lemma TilesOddHeightStrip(d: Display, px: int)
    requires d.height % 2 == 1
    ensures forall k :: 0 <= k < 4 ==> !InRect(Tiles(d)[k], px, d.y + d.height - 1)
  {
  }

  /** A 1920x1080 display at the origin. */
  lemma TilesFullHd()
    ensures Tiles(Display(0, 0, 1920, 1080, None)) ==
      [Rect(0, 0, 960, 540), Rect(960, 0, 960, 540), Rect(0, 540, 960, 540), Rect(960, 540, 960, 540)]
  {
  }

  // ---------------------------------------------------------------------
  // Window identity and storage
  // ---------------------------------------------------------------------

  const ViewPrefix: string := "view-"

  /** The label of the window that shows the view with this id. */
  function Label(id: string): string {
    ViewPrefix + id
  }

  predicate IsViewLabel(lbl: string) {
    ViewPrefix <= lbl
  }

  /** A directory path as its components. */
  type Path = seq<string>

  /** The storage directory a view's window is created with: `root/profiles/(profile or label)`. */
  function DataDir(root: Path, v: ViewConfig): Path {
    root + ["profiles", v.profile.GetOr(Label(v.id))]
  }

  /** Every derived label carries the view prefix, and different ids give different labels. */
  lemma LabelIsViewLabel(id: string, id': string)
    ensures IsViewLabel(Label(id))
    ensures Label(id) == Label(id') ==> id == id'
  {
    if Label(id) == Label(id') {
      assert id == Label(id)[|ViewPrefix|..];
    }
  }

  /** Views with different ids and no profile get different storage directories. */
  lemma DistinctDataDirs(root: Path, v: ViewConfig, w: ViewConfig)
    requires v.id != w.id && v.profile.None? && w.profile.None?
    ensures DataDir(root, v) != DataDir(root, w)
  {
    LabelIsViewLabel(v.id, w.id);
    assert DataDir(root, v)[|root| + 1] == Label(v.id);
    assert DataDir(root, w)[|root| + 1] == Label(w.id);
  }

  /** The default views get four different labels and four different storage directories. */
  lemma DefaultViewsIsolated(root: Path)
    ensures forall i, j :: 0 <= i < j < 4 ==>
      Label(DefaultConfig().views[i].id) != Label(DefaultConfig().views[j].id) &&
      DataDir(root, DefaultConfig().views[i]) != DataDir(root, DefaultConfig().views[j])
  {
    var vs := DefaultConfig().views;
    DefaultConfigFacts();
    forall i, j | 0 <= i < j < 4
      ensures Label(vs[i].id) != Label(vs[j].id) && DataDir(root, vs[i]) != DataDir(root, vs[j])
    {
      LabelIsViewLabel(vs[i].id, vs[j].id);
      assert DataDir(root, vs[i])[|root| + 1] == vs[i].profile.value;
      assert DataDir(root, vs[j])[|root| + 1] == vs[j].profile.value;
    }
  }

  // ---------------------------------------------------------------------
  // The window set and the reconciler's specification
  // ---------------------------------------------------------------------

  /**
   * A host window: the URL it shows, how many times a page was loaded into
   * it (once when it is built, once more on every navigate), its physical
   * geometry, visibility and storage directory.
   */
  datatype Window = Window(url: string, loads: nat, x: int, y: int, width: nat, height: nat,
                           visible: bool, dataDir: Path)

  /** The host's windows, by label. */
  type WindowSet = map<string, Window>

  /** The windows after an apply, and the error that stopped it, if any. */
  datatype ApplyOutcome = ApplyOutcome(windows: WindowSet, error: Option<ApplyError>)

  /** URL parsing: the serialised URL on success, `None` when the string is not an absolute URL. */
  type UrlParser = string -> Option<string>

  /** One step of the loop: navigate, move, resize and show the view's window, or create it. */
  function ApplyView(ws: WindowSet, v: ViewConfig, t: Rect, root: Path, parse: UrlParser)
    : ApplyOutcome
  {
    var lbl := Label(v.id);
    match parse(v.url)
    case None => ApplyOutcome(ws, Some(InvalidViewUrl))
    case Some(u) =>
      if lbl in ws then
        ApplyOutcome(ws[lbl := ws[lbl].(url := u, loads := ws[lbl].loads + 1, x := t.x, y := t.y,
                                            width := t.width, height := t.height, visible := true)],
                     None)
      else
        ApplyOutcome(ws[lbl := Window(u, 1, t.x, t.y, t.width, t.height, true, DataDir(root, v))],
                     None)
  }

  /** The first `n` steps of the loop, stopping at the first error with earlier changes kept. */
  function ApplyViews(ws: WindowSet, views: seq<ViewConfig>, tiles: seq<Rect>, n: nat,
                      root: Path, parse: UrlParser): ApplyOutcome
    requires n <= |views| && n <= |tiles|
  {
    if n == 0 then ApplyOutcome(ws, None)
    else
      var prev := ApplyViews(ws, views, tiles, n - 1, root, parse);
      if prev.error.Some? then prev
      else ApplyView(prev.windows, views[n - 1], tiles[n - 1], root, parse)
  }

  /** A whole apply: select the display, then run the loop over the four views. */
  function Reconcile(ws: WindowSet, cfg: AppConfig, monitors: seq<Display>,
                     primary: Option<Display>, root: Path, parse: UrlParser): ApplyOutcome
  {
    match SelectMonitor(cfg.monitor, monitors, primary)
    case Failure(e) => ApplyOutcome(ws, Some(e))
    case Success(d) => ApplyViews(ws, cfg.views, Tiles(d), 4, root, parse)
  }

  /** The windows left after closing every window whose label has the view prefix. */
  function CloseViewWindows(ws: WindowSet): WindowSet {
    map l | l in ws && !IsViewLabel(l) :: ws[l]
  }

  // ---------------------------------------------------------------------
  // Properties of the reconciler
  // ---------------------------------------------------------------------

  /** The last of the first `n` views whose label is `l`. */
  function LastWith(views: seq<ViewConfig>, n: nat, l: string): (r: Option<nat>)
    requires n <= |views|
    ensures r.Some? ==> r.value < n && Label(views[r.value].id) == l
    ensures r.Some? ==> forall j :: r.value < j < n ==> Label(views[j].id) != l
    ensures r.None? ==> forall j :: 0 <= j < n ==> Label(views[j].id) != l
  {
    if n == 0 then None
    else if Label(views[n - 1].id) == l then Some(n - 1)
    else LastWith(views, n - 1, l)
  }

  /** `LastWith` sees only the views' ids. */
  lemma {:induction false} LastWithSameIds(views: seq<ViewConfig>, views': seq<ViewConfig>, n: nat, l: string)
    requires n <= |views| && n <= |views'|
    requires forall j :: 0 <= j < n ==> views[j].id == views'[j].id
    ensures LastWith(views, n, l) == LastWith(views', n, l)
  {
    if n > 0 {
      LastWithSameIds(views, views', n - 1, l);
    }
  }

  /** How many of the first `n` views have the label `l`: zero exactly when none has. */
  function CountWith(views: seq<ViewConfig>, n: nat, l: string): (r: nat)
    requires n <= |views|
    ensures r == 0 <==> LastWith(views, n, l).None?
    ensures r <= n
  {
    if n == 0 then 0
    else CountWith(views, n - 1, l) + (if Label(views[n - 1].id) == l then 1 else 0)
  }

  /** `CountWith` sees only the views' ids. */
  lemma {:induction false} CountWithSameIds(views: seq<ViewConfig>, views': seq<ViewConfig>, n: nat, l: string)
    requires n <= |views| && n <= |views'|
    requires forall j :: 0 <= j < n ==> views[j].id == views'[j].id
    ensures CountWith(views, n, l) == CountWith(views', n, l)
  {
    if n > 0 {
      CountWithSameIds(views, views', n - 1, l);
    }
  }

  /** With distinct ids, each view's label is derived by exactly one view. */
  lemma {:induction false} CountWithDistinct(views: seq<ViewConfig>, n: nat, i: nat)
    requires i < n <= |views| && DistinctIds(views)
    ensures CountWith(views, n, Label(views[i].id)) == 1
  {
    var l := Label(views[i].id);
    if n - 1 == i {
      forall j | 0 <= j < n - 1 ensures Label(views[j].id) != l {
        LabelIsViewLabel(views[j].id, views[i].id);
      }
    } else {
      LabelIsViewLabel(views[n - 1].id, views[i].id);
      CountWithDistinct(views, n - 1, i);
    }
  }

  /**
   * The windows as they are after every view window has been navigated once
   * per view that derives its label, with nothing else changed.
   */
  function Renavigated(ws: WindowSet, views: seq<ViewConfig>, n: nat): WindowSet
    requires n <= |views|
  {
    map l | l in ws :: ws[l].(loads := ws[l].loads + CountWith(views, n, l))
  }

  /** Window `w` shows view `v` at tile `t`. */
  predicate Placed(w: Window, v: ViewConfig, t: Rect, parse: UrlParser) {
    parse(v.url).Some? && w.url == parse(v.url).value &&
    w.x == t.x && w.y == t.y && w.width == t.width && w.height == t.height && w.visible
  }

  /** The loop stops with an error exactly when some URL does not parse; that error is `InvalidViewUrl`. */
  lemma {:induction false} ApplyViewsFailsIff(ws: WindowSet, views: seq<ViewConfig>, tiles: seq<Rect>,
                                              n: nat, root: Path, parse: UrlParser)
    requires n <= |views| && n <= |tiles|
    ensures var o := ApplyViews(ws, views, tiles, n, root, parse);
      (o.error.None? <==> forall j :: 0 <= j < n ==> parse(views[j].url).Some?) &&
      (o.error.Some? ==> o.error.value == InvalidViewUrl)
  {
    if n > 0 {
      ApplyViewsFailsIff(ws, views, tiles, n - 1, root, parse);
    }
  }

  /**
   * When view `k` is the first whose URL does not parse, the loop stops there:
   * the windows are those after the first `k` views, with no rollback.
   */
  lemma {:induction false} ApplyViewsStopsAt(ws: WindowSet, views: seq<ViewConfig>, tiles: seq<Rect>,
                                             n: nat, root: Path, parse: UrlParser, k: nat)
    requires k < n <= |views| && n <= |tiles|
    requires parse(views[k].url).None?
    requires forall j :: 0 <= j < k ==> parse(views[j].url).Some?
    ensures ApplyViews(ws, views, tiles, n, root, parse) ==
      ApplyOutcome(ApplyViews(ws, views, tiles, k, root, parse).windows, Some(InvalidViewUrl))
  {
    if n == k + 1 {
      ApplyViewsFailsIff(ws, views, tiles, k, root, parse);
    } else {
      ApplyViewsStopsAt(ws, views, tiles, n - 1, root, parse, k);
    }
  }

  /**
   * After a successful loop a window's page loads are those it had before
   * (none if it did not exist) plus one for every view with its label; a
   * label without a window had none before and is derived by no view.
   */
  lemma {:induction false} ApplyViewsLoads(ws: WindowSet, views: seq<ViewConfig>, tiles: seq<Rect>,
                                           n: nat, root: Path, parse: UrlParser, l: string)
    requires n <= |views| && n <= |tiles|
    requires ApplyViews(ws, views, tiles, n, root, parse).error.None?
    ensures var r := ApplyViews(ws, views, tiles, n, root, parse).windows;
      (l in r ==> r[l].loads == (if l in ws then ws[l].loads else 0) + CountWith(views, n, l)) &&
      (l !in r ==> l !in ws && CountWith(views, n, l) == 0)
  {
    if n > 0 {
      var prev := ApplyViews(ws, views, tiles, n - 1, root, parse);
      assert prev.error.None?;
      assert ApplyViews(ws, views, tiles, n, root, parse) ==
             ApplyView(prev.windows, views[n - 1], tiles[n - 1], root, parse);
      ApplyViewsLoads(ws, views, tiles, n - 1, root, parse, l);
    }
  }

  /**
   * What a successful loop leaves under each label: a label no view derives
   * is untouched; otherwise the window shows the last view with that label at
   * that view's tile, keeps its storage directory if it existed, and was
   * created with the directory of one of those views if it did not. Its
   * page loads are counted by `ApplyViewsLoads`.
   */
  lemma {:induction false} ApplyViewsWindow(ws: WindowSet, views: seq<ViewConfig>, tiles: seq<Rect>,
                                            n: nat, root: Path, parse: UrlParser, l: string)
    requires n <= |views| && n <= |tiles|
    requires ApplyViews(ws, views, tiles, n, root, parse).error.None?
    ensures var r := ApplyViews(ws, views, tiles, n, root, parse).windows;
      match LastWith(views, n, l)
      case None => (l in r <==> l in ws) && (l in ws ==> r[l] == ws[l])
      case Some(j) =>
        l in r && Placed(r[l], views[j], tiles[j], parse) &&
        (l in ws ==> r[l].dataDir == ws[l].dataDir) &&
        (l !in ws ==> exists i :: 0 <= i < n && Label(views[i].id) == l &&
                                 r[l].dataDir == DataDir(root, views[i]))
  {
    if n > 0 {
      var prev := ApplyViews(ws, views, tiles, n - 1, root, parse);
      assert prev.error.None?;
      ApplyViewsWindow(ws, views, tiles, n - 1, root, parse, l);
      var r := ApplyViews(ws, views, tiles, n, root, parse).windows;
      var v := views[n - 1];
      if Label(v.id) == l {
        if l !in prev.windows {
          assert r[l].dataDir == DataDir(root, views[n - 1]);
        } else if l !in ws {
          var i :| 0 <= i < n - 1 && Label(views[i].id) == l &&
                   prev.windows[l].dataDir == DataDir(root, views[i]);
          assert r[l].dataDir == DataDir(root, views[i]);
        }
      } else {
        assert LastWith(views, n, l) == LastWith(views, n - 1, l);
        if LastWith(views, n - 1, l).Some? && l !in ws {
          var i :| 0 <= i < n - 1 && Label(views[i].id) == l &&
                   prev.windows[l].dataDir == DataDir(root, views[i]);
          assert r[l].dataDir == DataDir(root, views[i]);
        }
      }
    }
  }

  /**
   * Windows under labels that no view derives are never touched, whether the
   * loop succeeds or stops early; in particular no window without the view
   * prefix is touched.
   */
  lemma {:induction false} ApplyViewsFrame(ws: WindowSet, views: seq<ViewConfig>, tiles: seq<Rect>,
                                           n: nat, root: Path, parse: UrlParser, l: string)
    requires n <= |views| && n <= |tiles|
    requires (forall j :: 0 <= j < n ==> Label(views[j].id) != l) || !IsViewLabel(l)
    ensures var r := ApplyViews(ws, views, tiles, n, root, parse).windows;
      (l in r <==> l in ws) && (l in ws ==> r[l] == ws[l])
  {
    if n > 0 {
      LabelIsViewLabel(views[n - 1].id, views[n - 1].id);
      ApplyViewsFrame(ws, views, tiles, n - 1, root, parse, l);
    }
  }

  /**
   * Create versus update, for four views with distinct ids after a
   * successful loop: every view's window shows it at its tile; a window that
   * existed was navigated (one more page load) and keeps its storage
   * directory, and a missing one is created with one page load and
   * `root/profiles/(profile or label)`.
   */
  lemma ApplyCreatesOrUpdates(ws: WindowSet, views: seq<ViewConfig>, tiles: seq<Rect>,
                              root: Path, parse: UrlParser, i: nat)
    requires |views| == 4 && |tiles| == 4 && i < 4 && DistinctIds(views)
    requires ApplyViews(ws, views, tiles, 4, root, parse).error.None?
    ensures var r := ApplyViews(ws, views, tiles, 4, root, parse).windows;
      var l := Label(views[i].id);
      l in r && Placed(r[l], views[i], tiles[i], parse) &&
      (l in ws ==> r[l].dataDir == ws[l].dataDir && r[l].loads == ws[l].loads + 1) &&
      (l !in ws ==> r[l].dataDir == DataDir(root, views[i]) && r[l].loads == 1)
  {
    var l := Label(views[i].id);
    forall j | 0 <= j < 4 && j != i ensures Label(views[j].id) != l {
      LabelIsViewLabel(views[j].id, views[i].id);
    }
    CountWithDistinct(views, 4, i);
    ApplyViewsWindow(ws, views, tiles, 4, root, parse, l);
    ApplyViewsLoads(ws, views, tiles, 4, root, parse, l);
  }

  /**
   * Applying again what was just applied creates nothing, closes nothing and
   * moves nothing: the only change is that every view window is navigated
   * to the URL it already shows, a reload.
   */
  lemma ApplyViewsIdempotent(ws: WindowSet, views: seq<ViewConfig>, tiles: seq<Rect>,
                             n: nat, root: Path, parse: UrlParser)
    requires n <= |views| && n <= |tiles|
    requires ApplyViews(ws, views, tiles, n, root, parse).error.None?
    ensures var r := ApplyViews(ws, views, tiles, n, root, parse).windows;
      ApplyViews(r, views, tiles, n, root, parse) == ApplyOutcome(Renavigated(r, views, n), None)
  {
    var r := ApplyViews(ws, views, tiles, n, root, parse).windows;
    assert ApplyViews(r, views, tiles, n, root, parse).error.None? by {
      ApplyViewsFailsIff(ws, views, tiles, n, root, parse);
      ApplyViewsFailsIff(r, views, tiles, n, root, parse);
    }
    var r2 := ApplyViews(r, views, tiles, n, root, parse).windows;
    var expected := Renavigated(r, views, n);
    forall l | true
      ensures (l in r2 <==> l in expected) && (l in expected ==> r2[l] == expected[l])
    {
      ApplyViewsWindow(ws, views, tiles, n, root, parse, l);
      ApplyViewsWindow(r, views, tiles, n, root, parse, l);
      ApplyViewsLoads(r, views, tiles, n, root, parse, l);
    }
    assert r2 == expected;
  }

  /**
   * A failed monitor selection changes nothing, and repeating a successful
   * whole apply succeeds again and only reloads the view windows.
   */
  lemma ReconcileIdempotent(ws: WindowSet, cfg: AppConfig, monitors: seq<Display>,
                            primary: Option<Display>, root: Path, parse: UrlParser)
    ensures var o := Reconcile(ws, cfg, monitors, primary, root, parse);
      (SelectMonitor(cfg.monitor, monitors, primary).Failure? ==> o.windows == ws) &&
      (o.error.None? ==> Reconcile(o.windows, cfg, monitors, primary, root, parse) ==
                         ApplyOutcome(Renavigated(o.windows, cfg.views, 4), None))
  {
    var sel := SelectMonitor(cfg.monitor, monitors, primary);
    if sel.Success? {
      var o := Reconcile(ws, cfg, monitors, primary, root, parse);
      if o.error.None? {
        ApplyViewsIdempotent(ws, cfg.views, Tiles(sel.value), 4, root, parse);
      }
    }
  }

  /** `UrlOnlyEdit` for the window under one label `m`. */
  lemma UrlOnlyEditAt(ws: WindowSet, views: seq<ViewConfig>, tiles: seq<Rect>,
                      root: Path, parse: UrlParser, n: nat, k: nat, url: string, m: string)
    requires k < n <= |views| && n <= |tiles| && DistinctIds(views)
    requires ApplyViews(ws, views, tiles, n, root, parse).error.None?
    requires parse(url).Some?
    requires ApplyViews(ApplyViews(ws, views, tiles, n, root, parse).windows,
                        views[k := views[k].(url := url)], tiles, n, root, parse).error.None?
    ensures var r := ApplyViews(ws, views, tiles, n, root, parse).windows;
      var r2 := ApplyViews(r, views[k := views[k].(url := url)], tiles, n, root, parse).windows;
      var reloaded := Renavigated(r, views, n);
      (m in r2 <==> m in reloaded) &&
      (m in reloaded ==> r2[m] == if m == Label(views[k].id) then reloaded[m].(url := parse(url).value)
                                  else reloaded[m])
  {
    var r := ApplyViews(ws, views, tiles, n, root, parse).windows;
    var views' := views[k := views[k].(url := url)];
    ApplyViewsWindow(ws, views, tiles, n, root, parse, m);
    ApplyViewsWindow(r, views', tiles, n, root, parse, m);
    ApplyViewsLoads(r, views', tiles, n, root, parse, m);
    LastWithSameIds(views, views', n, m);
    CountWithSameIds(views, views', n, m);
    match LastWith(views, n, m)
    case None =>
    case Some(j) =>
      if j != k {
        LabelIsViewLabel(views[j].id, views[k].id);
        assert views[j].id != views[k].id;
        assert views'[j] == views[j];
      }
  }

  /**
   * Editing only the URL of view `k` and applying the `n` views again moves, creates and
   * closes nothing: view `k`'s window gets the new URL, and every view
   * window, changed or not, is navigated once more.
   */
  lemma UrlOnlyEdit(ws: WindowSet, views: seq<ViewConfig>, tiles: seq<Rect>,
                    root: Path, parse: UrlParser, n: nat, k: nat, url: string)
    requires k < n <= |views| && n <= |tiles| && DistinctIds(views)
    requires ApplyViews(ws, views, tiles, n, root, parse).error.None?
    requires parse(url).Some?
    ensures var r := ApplyViews(ws, views, tiles, n, root, parse).windows;
      var l := Label(views[k].id);
      var reloaded := Renavigated(r, views, n);
      l in r && l in reloaded &&
      ApplyViews(r, views[k := views[k].(url := url)], tiles, n, root, parse) ==
        ApplyOutcome(reloaded[l := reloaded[l].(url := parse(url).value)], None)
  {
    var r := ApplyViews(ws, views, tiles, n, root, parse).windows;
    var views' := views[k := views[k].(url := url)];
    var l := Label(views[k].id);
    assert l in r by {
      ApplyViewsWindow(ws, views, tiles, n, root, parse, l);
    }
    assert ApplyViews(r, views', tiles, n, root, parse).error.None? by {
      ApplyViewsFailsIff(ws, views, tiles, n, root, parse);
      forall j | 0 <= j < n ensures parse(views'[j].url).Some? {
        if j != k {
          assert views'[j] == views[j];
        }
      }
      ApplyViewsFailsIff(r, views', tiles, n, root, parse);
    }
    var r2 := ApplyViews(r, views', tiles, n, root, parse).windows;
    var reloaded := Renavigated(r, views, n);
    var expected := reloaded[l := reloaded[l].(url := parse(url).value)];
    forall m | true
      ensures (m in r2 <==> m in expected) && (m in expected ==> r2[m] == expected[m])
    {
      UrlOnlyEditAt(ws, views, tiles, root, parse, n, k, url, m);
    }
    assert r2 == expected;
  }

  /**
   * Rebuild: after closing every view window, a successful apply creates
   * every view's window afresh (one page load, its own storage directory),
   * leaves no stale view window behind, and leaves every other window alone.
   */
  lemma RebuildCreatesAll(ws: WindowSet, cfg: AppConfig, monitors: seq<Display>,
                          primary: Option<Display>, root: Path, parse: UrlParser)
    requires DistinctIds(cfg.views)
    requires Reconcile(CloseViewWindows(ws), cfg, monitors, primary, root, parse).error.None?
    ensures var r := Reconcile(CloseViewWindows(ws), cfg, monitors, primary, root, parse).windows;
      var d := SelectMonitor(cfg.monitor, monitors, primary).value;
      (forall i :: 0 <= i < 4 ==>
        var l := Label(cfg.views[i].id);
        l in r && Placed(r[l], cfg.views[i], Tiles(d)[i], parse) &&
        r[l].dataDir == DataDir(root, cfg.views[i]) && r[l].loads == 1) &&
      (forall l :: IsViewLabel(l) && l in r ==> exists i :: 0 <= i < 4 && l == Label(cfg.views[i].id)) &&
      (forall l :: !IsViewLabel(l) ==> (l in r <==> l in ws) && (l in ws ==> r[l] == ws[l]))
  {
    var closed := CloseViewWindows(ws);
    var sel := SelectMonitor(cfg.monitor, monitors, primary);
    var tiles := Tiles(sel.value);
    var r := ApplyViews(closed, cfg.views, tiles, 4, root, parse).windows;
    forall i | 0 <= i < 4
      ensures var l := Label(cfg.views[i].id);
        l in r && Placed(r[l], cfg.views[i], tiles[i], parse) &&
        r[l].dataDir == DataDir(root, cfg.views[i]) && r[l].loads == 1
    {
      LabelIsViewLabel(cfg.views[i].id, cfg.views[i].id);
      ApplyCreatesOrUpdates(closed, cfg.views, tiles, root, parse, i);
    }
    forall l | IsViewLabel(l) && l in r
      ensures exists i :: 0 <= i < 4 && l == Label(cfg.views[i].id)
    {
      ApplyViewsWindow(closed, cfg.views, tiles, 4, root, parse, l);
    }
    forall l | !IsViewLabel(l)
      ensures (l in r <==> l in ws) && (l in ws ==> r[l] == ws[l])
    {
      ApplyViewsFrame(closed, cfg.views, tiles, 4, root, parse, l);
    }
  }

  // ---------------------------------------------------------------------
  // The host and the imperative reconciler
  // ---------------------------------------------------------------------

  /**
   * The application handle as the reconciler sees it: the live windows,
   * which it changes, and the displays, storage root and URL parser, which
   * it only reads.
   */
  class Host {
    var windows: WindowSet
    const monitors: seq<Display>
    const primary: Option<Display>
    const dataRoot: Path
    const parseUrl: UrlParser

    constructor (windows: WindowSet, monitors: seq<Display>, primary: Option<Display>,
                 dataRoot: Path, parseUrl: UrlParser)
      ensures this.windows == windows && this.monitors == monitors && this.primary == primary
      ensures this.dataRoot == dataRoot && this.parseUrl == parseUrl
    {
      this.windows := windows;
      this.monitors := monitors;
      this.primary := primary;
      this.dataRoot := dataRoot;
      this.parseUrl := parseUrl;
    }

    /**
     * Apply `cfg`: select the display, compute the tiles, then for each view
     * in order update its window in place or create it. The first error
     * stops the loop; changes already made stay.
     */
    method SpawnWallboard(cfg: AppConfig) returns (r: Result<(), ApplyError>)
      modifies this
      ensures var o := Reconcile(old(windows), cfg, monitors, primary, dataRoot, parseUrl);
        windows == o.windows &&
        (r.Success? <==> o.error.None?) &&
        (r.Failure? ==> o.error == Some(r.error))
    {
      var selected := SelectMonitor(cfg.monitor, monitors, primary);
      if selected.Failure? {
        return Failure(selected.error);
      }
      var monitor := selected.value;
      var tileW, tileH := monitor.width / 2, monitor.height / 2;
      var rects := Tiles(monitor);
      ghost var ws0 := windows;
      for i := 0 to 4
        invariant ApplyViews(ws0, cfg.views, rects, i, dataRoot, parseUrl) == ApplyOutcome(windows, None)
      {
        var view := cfg.views[i];
        var lbl := Label(view.id);
        var targetUrl := parseUrl(view.url);
        if targetUrl.None? {
          ApplyViewsFailsIff(ws0, cfg.views, rects, i, dataRoot, parseUrl);
          ApplyViewsStopsAt(ws0, cfg.views, rects, 4, dataRoot, parseUrl, i);
          return Failure(InvalidViewUrl);
        }
        var x, y := rects[i].x, rects[i].y;
        if lbl in windows {
          var win := windows[lbl];
          windows := windows[lbl := win.(url := targetUrl.value, loads := win.loads + 1, x := x, y := y,
                                           width := tileW, height := tileH, visible := true)];
        } else {
          var profileName := view.profile.GetOr(lbl);
          var dataDir := dataRoot + ["profiles", profileName];
          windows := windows[lbl := Window(targetUrl.value, 1, x, y, tileW, tileH, true, dataDir)];
        }
      }
      r := Success(());
    }

    /** Close every window whose label has the view prefix, then apply `cfg`. */
    method RecreateWallboardWindows(cfg: AppConfig) returns (r: Result<(), ApplyError>)
      modifies this
      ensures var o := Reconcile(CloseViewWindows(old(windows)), cfg, monitors, primary,
                                 dataRoot, parseUrl);
        windows == o.windows &&
        (r.Success? <==> o.error.None?) &&
        (r.Failure? ==> o.error == Some(r.error))
    {
      ghost var ws0 := windows;
      var pending := windows.Keys;
      while pending != {}
        invariant pending <= ws0.Keys
        invariant windows == map l | l in ws0 && (l in pending || !IsViewLabel(l)) :: ws0[l]
        decreases pending
      {
        var lbl :| lbl in pending;
        if IsViewLabel(lbl) {
          windows := windows - {lbl};
        }
        pending := pending - {lbl};
      }
      assert windows == CloseViewWindows(ws0);
      r := SpawnWallboard(cfg);
    }
  }
}
