/**
 * The commands the settings surface calls: save (validate, write, then
 * replace the in-memory configuration), list the displays, and apply the
 * stored configuration.
 */
module SettingsApi {
  import opened Wrappers
  import opened Text
  import opened Config
  import opened WindowManager

  // ---------------------------------------------------------------------
  // Save-time validation
  // ---------------------------------------------------------------------

  predicate HasHttpScheme(url: string) {
    "http://" <= url || "https://" <= url
  }

  function InvalidUrlMessage(id: string): string {
    "URL for '" + id + "' must start with http:// or https://"
  }

  /**
   * The validation loop of `save_config`: the first view, in order, whose
   * URL starts with neither scheme is reported by its id.
   */
  method ValidateViewUrls(views: FourViews) returns (r: Result<(), string>)
    ensures r.Success? <==> forall i :: 0 <= i < 4 ==> HasHttpScheme(views[i].url)
    ensures r.Failure? ==>
      (exists k :: 0 <= k < 4 && !HasHttpScheme(views[k].url) &&
         (forall j :: 0 <= j < k ==> HasHttpScheme(views[j].url)) &&
         r.error == InvalidUrlMessage(views[k].id))
  {
    for i := 0 to 4
      invariant forall j :: 0 <= j < i ==> HasHttpScheme(views[j].url)
    {
      if !HasHttpScheme(views[i].url) {
        return Failure(InvalidUrlMessage(views[i].id));
      }
    }
    return Success(());
  }

  /** The configuration written on first start passes save validation. */
  lemma DefaultConfigPassesValidation()
    ensures forall i :: 0 <= i < 4 ==> HasHttpScheme(DefaultConfig().views[i].url)
  {
    DefaultConfigFacts();
  }

  /** The rejection message names the offending view. */
  lemma InvalidUrlMessageNamesView(id: string)
    ensures OccursAt(InvalidUrlMessage(id), id, 9)
  {
    assert InvalidUrlMessage(id)[9..9 + |id|] == id;
  }

  // ---------------------------------------------------------------------
  // Monitor listing
  // ---------------------------------------------------------------------

  datatype MonitorInfo = MonitorInfo(index: nat, name: string, isPrimary: bool,
                                     position: (int, int), size: (nat, nat))

  /** The only identity a display has: its origin and size. */
  function Signature(d: Display): (int, int, nat, nat) {
    (d.x, d.y, d.width, d.height)
  }

  /** The name shown for a display the host reports without one. */
  function FallbackName(index: nat): string {
    "Monitor " + NatToString(index)
  }

  function MonitorEntry(index: nat, d: Display, primarySig: Option<(int, int, nat, nat)>)
    : MonitorInfo
  {
    MonitorInfo(index, d.name.GetOr(FallbackName(index)),
                primarySig.Some? && primarySig.value == Signature(d),
                (d.x, d.y), (d.width, d.height))
  }

  /**
   * One entry per display, in enumeration order, entry `i` with index `i`;
   * a display is flagged primary exactly when its signature is the primary's.
   */
  function ListMonitors(monitors: seq<Display>, primary: Option<Display>): (r: seq<MonitorInfo>)
    ensures |r| == |monitors|
    ensures forall i :: 0 <= i < |r| ==>
      r[i].index == i &&
      r[i].position == (monitors[i].x, monitors[i].y) &&
      r[i].size == (monitors[i].width, monitors[i].height)
    ensures forall i :: 0 <= i < |r| ==>
      r[i].name == (if monitors[i].name.Some? then monitors[i].name.value else FallbackName(i))
    ensures forall i :: 0 <= i < |r| ==>
      (r[i].isPrimary <==> primary.Some? && Signature(primary.value) == Signature(monitors[i]))
  {
    var primarySig := if primary.Some? then Some(Signature(primary.value)) else None;
    seq(|monitors|, i requires 0 <= i < |monitors| => MonitorEntry(i, monitors[i], primarySig))
  }

  /** Without a primary display no entry is flagged; with one, every display equal to it is. */
  lemma PrimaryFlags(monitors: seq<Display>, primary: Option<Display>)
    ensures primary.None? ==> forall i :: 0 <= i < |monitors| ==> !ListMonitors(monitors, primary)[i].isPrimary
    ensures forall i :: 0 <= i < |monitors| && primary == Some(monitors[i]) ==>
      ListMonitors(monitors, primary)[i].isPrimary
  {
  }

  /**
   * Two displays with the same origin and size get the same primary flag:
   * identical mirrored displays cannot be told apart.
   */
  lemma SameSignatureSameFlag(monitors: seq<Display>, primary: Option<Display>, i: nat, j: nat)
    requires i < |monitors| && j < |monitors|
    requires Signature(monitors[i]) == Signature(monitors[j])
    ensures ListMonitors(monitors, primary)[i].isPrimary == ListMonitors(monitors, primary)[j].isPrimary
  {
  }

  /** Fallback names of different displays differ. */
  lemma FallbackNamesDistinct(i: nat, j: nat)
    requires i != j
    ensures FallbackName(i) != FallbackName(j)
  {
    NatToStringDigits(i);
    NatToStringDigits(j);
    assert NatToString(i) == FallbackName(i)[8..];
    assert NatToString(j) == FallbackName(j)[8..];
  }

  /** Choosing a listed entry's index in Index mode selects that same display. */
  lemma ListedIndexSelects(monitors: seq<Display>, primary: Option<Display>, i: nat)
    requires i < |monitors| && i <= USIZE_MAX
    ensures var entry := ListMonitors(monitors, primary)[i];
      SelectMonitor(MonitorSelector(Index, Some(NatToString(entry.index))), monitors, primary)
        == Success(monitors[i]) &&
      entry.position == (monitors[i].x, monitors[i].y)
  {
    IndexSelectsListed(monitors, primary, i);
  }

  // ---------------------------------------------------------------------
  // The shared application state
  // ---------------------------------------------------------------------

  /** The configuration cell shared by the commands. */
  class AppState {
    var config: AppConfig

    constructor (cfg: AppConfig)
      ensures config == cfg
    {
      config := cfg;
    }

    /**
     * Validate, write, and only then replace the stored configuration.
     * `writeError` is the outcome of locating the file, serialising and
     * writing it: `None` when all of that succeeded.
     */
    method SaveConfig(newCfg: AppConfig, writeError: Option<string>) returns (r: Result<(), string>)
      modifies this
      ensures r.Success? <==>
        (forall i :: 0 <= i < 4 ==> HasHttpScheme(newCfg.views[i].url)) && writeError.None?
      ensures config == if r.Success? then newCfg else old(config)
      ensures (exists i :: 0 <= i < 4 && !HasHttpScheme(newCfg.views[i].url)) ==>
        exists k :: 0 <= k < 4 && !HasHttpScheme(newCfg.views[k].url) &&
          (forall j :: 0 <= j < k ==> HasHttpScheme(newCfg.views[j].url)) &&
          r == Failure(InvalidUrlMessage(newCfg.views[k].id))
      ensures (forall i :: 0 <= i < 4 ==> HasHttpScheme(newCfg.views[i].url)) && writeError.Some? ==>
        r == Failure(writeError.value)
    {
      var valid := ValidateViewUrls(newCfg.views);
      if valid.Failure? {
        return valid;
      }
      if writeError.Some? {
        return Failure(writeError.value);
      }
      config := newCfg;
      return Success(());
    }

    /** Apply a snapshot of the stored configuration; the stored value is left as it was. */
    method ApplyConfig(host: Host) returns (r: Result<(), ApplyError>)
      modifies host
      ensures config == old(config)
      ensures var o := Reconcile(old(host.windows), config, host.monitors, host.primary,
                                 host.dataRoot, host.parseUrl);
        host.windows == o.windows &&
        (r.Success? <==> o.error.None?) &&
        (r.Failure? ==> o.error == Some(r.error))
    {
      var cfg := config;
      r := host.SpawnWallboard(cfg);
    }
  }
}
