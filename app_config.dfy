/**
 * The persisted configuration: which display to use and the four views.
 * A configuration always holds exactly four views; the type says so.
 */
module Config {
  import opened Wrappers

  datatype MonitorMode = Primary | Index | NameContains

  /** `value` is the index for `Index` and the needle for `NameContains`; `Primary` ignores it. */
  datatype MonitorSelector = MonitorSelector(mode: MonitorMode, value: Option<string>)

  datatype ViewConfig = ViewConfig(id: string, url: string, profile: Option<string>)

  /** Rust's `u8`. */
  type Byte = x: int | 0 <= x < 256

  /** Rust's `[ViewConfig; 4]`. */
  type FourViews = s: seq<ViewConfig> | |s| == 4
    witness [ViewConfig("", "", None), ViewConfig("", "", None),
             ViewConfig("", "", None), ViewConfig("", "", None)]

  datatype AppConfig = AppConfig(version: Byte, monitor: MonitorSelector, views: FourViews)

  /** The views' ids are pairwise different. */
  predicate DistinctIds(views: seq<ViewConfig>) {
    forall i, j :: 0 <= i < j < |views| ==> views[i].id != views[j].id
  }

  /** The configuration written on first start. */
  function DefaultConfig(): AppConfig {
    AppConfig(
      1,
      MonitorSelector(Primary, None),
      [ ViewConfig("topLeft", "https://example.com", Some("view1")),
        ViewConfig("topRight", "https://example.org", Some("view2")),
        ViewConfig("bottomLeft", "https://example.net", Some("view3")),
        ViewConfig("bottomRight", "https://www.wikipedia.org", Some("view4")) ])
  }

  /**
   * The default configuration: version 1, the primary display, four views
   * with pairwise different ids and pairwise different profiles, each URL
   * with the https scheme.
   */
  lemma DefaultConfigFacts()
    ensures var c := DefaultConfig();
      c.version == 1 && c.monitor == MonitorSelector(Primary, None) &&
      DistinctIds(c.views) &&
      (forall i :: 0 <= i < 4 ==> c.views[i].profile.Some?) &&
      (forall i, j :: 0 <= i < j < 4 ==> c.views[i].profile != c.views[j].profile) &&
      (forall i :: 0 <= i < 4 ==> "https://" <= c.views[i].url)
  {
    var vs := DefaultConfig().views;
    // The ids have four different lengths; the profiles differ in their last character.
    assert |vs[0].id| == 7 && |vs[1].id| == 8 && |vs[2].id| == 10 && |vs[3].id| == 11;
    assert vs[0].profile.value[4] == '1' && vs[1].profile.value[4] == '2';
    assert vs[2].profile.value[4] == '3' && vs[3].profile.value[4] == '4';
  }
}
