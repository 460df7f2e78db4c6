/**
 * The value mapping of the settings page: HTML escaping of the values put
 * into the form, and the normalisation applied when the form is read back
 * into a configuration.
 */
module SettingsUi {
  import opened Wrappers
  import opened Config

  // ---------------------------------------------------------------------
  // HTML escaping
  // ---------------------------------------------------------------------

  /** `String.prototype.replaceAll` with a one-character pattern. */
  function ReplaceChar(s: string, c: char, rep: string): string
    decreases |s|
  {
    if |s| == 0 then "" else (if s[0] == c then rep else [s[0]]) + ReplaceChar(s[1..], c, rep)
  }

  /** The five replacements, `&` first. */
  function EscapeHtml(s: string): string {
    var amp := ReplaceChar(s, '&', "&amp;");
    var lt := ReplaceChar(amp, '<', "&lt;");
    var gt := ReplaceChar(lt, '>', "&gt;");
    var quot := ReplaceChar(gt, '"', "&quot;");
    ReplaceChar(quot, '\'', "&#039;")
  }

  /** The escape of a single character. */
  function EscapeChar(c: char): string {
    match c
    case '&' => "&amp;"
    case '<' => "&lt;"
    case '>' => "&gt;"
    case '"' => "&quot;"
    case '\'' => "&#039;"
    case _ => [c]
  }

  /** Escaping character by character: the reference definition. */
  function EscapeEach(s: string): string
    decreases |s|
  {
    if |s| == 0 then "" else EscapeChar(s[0]) + EscapeEach(s[1..])
  }

  predicate IsSpecial(c: char) {
    c == '&' || c == '<' || c == '>' || c == '"' || c == '\''
  }

  /** Decoding of the five character references `EscapeHtml` writes, as an HTML parser does. */
  function Unescape(s: string): string
    decreases |s|
  {
    if |s| == 0 then ""
    else if s[0] != '&' then [s[0]] + Unescape(s[1..])
    else if "&amp;" <= s then "&" + Unescape(s[5..])
    else if "&lt;" <= s then "<" + Unescape(s[4..])
    else if "&gt;" <= s then ">" + Unescape(s[4..])
    else if "&quot;" <= s then "\"" + Unescape(s[6..])
    else if "&#039;" <= s then "'" + Unescape(s[6..])
    else [s[0]] + Unescape(s[1..])
  }

  lemma {:induction false} ReplaceCharAppend(a: string, b: string, c: char, rep: string)
    ensures ReplaceChar(a + b, c, rep) == ReplaceChar(a, c, rep) + ReplaceChar(b, c, rep)
    decreases |a|
  {
    if |a| == 0 {
      assert a + b == b;
    } else {
      assert (a + b)[1..] == a[1..] + b;
      ReplaceCharAppend(a[1..], b, c, rep);
    }
  }

  lemma {:induction false} ReplaceCharAbsent(s: string, c: char, rep: string)
    requires c !in s
    ensures ReplaceChar(s, c, rep) == s
    decreases |s|
  {
    if |s| > 0 {
      ReplaceCharAbsent(s[1..], c, rep);
    }
  }

  lemma EscapeHtmlAppend(a: string, b: string)
    ensures EscapeHtml(a + b) == EscapeHtml(a) + EscapeHtml(b)
  {
    var a1, b1 := ReplaceChar(a, '&', "&amp;"), ReplaceChar(b, '&', "&amp;");
    ReplaceCharAppend(a, b, '&', "&amp;");
    var a2, b2 := ReplaceChar(a1, '<', "&lt;"), ReplaceChar(b1, '<', "&lt;");
    ReplaceCharAppend(a1, b1, '<', "&lt;");
    var a3, b3 := ReplaceChar(a2, '>', "&gt;"), ReplaceChar(b2, '>', "&gt;");
    ReplaceCharAppend(a2, b2, '>', "&gt;");
    var a4, b4 := ReplaceChar(a3, '"', "&quot;"), ReplaceChar(b3, '"', "&quot;");
    ReplaceCharAppend(a3, b3, '"', "&quot;");
    ReplaceCharAppend(a4, b4, '\'', "&#039;");
  }

  /** The replacement chain applied to one character that none of the five patterns matches. */
  lemma EscapeOrdinaryChar(c: char)
    requires !IsSpecial(c)
    ensures EscapeHtml([c]) == [c]
  {
    ReplaceCharAbsent([c], '&', "&amp;");
    ReplaceCharAbsent([c], '<', "&lt;");
    ReplaceCharAbsent([c], '>', "&gt;");
    ReplaceCharAbsent([c], '"', "&quot;");
    ReplaceCharAbsent([c], '\'', "&#039;");
  }

  lemma ReplaceCharHit(c: char, rep: string)
    ensures ReplaceChar([c], c, rep) == rep
  {
    assert [c][1..] == [];
  }

  /**
   * A special character: the replacements before its own leave it alone,
   * its own turns it into its entity, and the later ones find nothing to
   * replace in that entity.
   */
  lemma EscapeHtmlOneChar(c: char)
    ensures EscapeHtml([c]) == EscapeChar(c)
  {
    var e := EscapeChar(c);
    if !IsSpecial(c) {
      EscapeOrdinaryChar(c);
    } else if c == '&' {
      ReplaceCharHit(c, e);
      assert '<' !in e && '>' !in e && '"' !in e && '\'' !in e;
      ReplaceCharAbsent(e, '<', "&lt;");
      ReplaceCharAbsent(e, '>', "&gt;");
      ReplaceCharAbsent(e, '"', "&quot;");
      ReplaceCharAbsent(e, '\'', "&#039;");
    } else if c == '<' {
      ReplaceCharAbsent([c], '&', "&amp;");
      ReplaceCharHit(c, e);
      assert '>' !in e && '"' !in e && '\'' !in e;
      ReplaceCharAbsent(e, '>', "&gt;");
      ReplaceCharAbsent(e, '"', "&quot;");
      ReplaceCharAbsent(e, '\'', "&#039;");
    } else if c == '>' {
      ReplaceCharAbsent([c], '&', "&amp;");
      ReplaceCharAbsent([c], '<', "&lt;");
      ReplaceCharHit(c, e);
      assert '"' !in e && '\'' !in e;
      ReplaceCharAbsent(e, '"', "&quot;");
      ReplaceCharAbsent(e, '\'', "&#039;");
    } else if c == '"' {
      ReplaceCharAbsent([c], '&', "&amp;");
      ReplaceCharAbsent([c], '<', "&lt;");
      ReplaceCharAbsent([c], '>', "&gt;");
      ReplaceCharHit(c, e);
      assert '\'' !in e;
      ReplaceCharAbsent(e, '\'', "&#039;");
    } else {
      ReplaceCharAbsent([c], '&', "&amp;");
      ReplaceCharAbsent([c], '<', "&lt;");
      ReplaceCharAbsent([c], '>', "&gt;");
      ReplaceCharAbsent([c], '"', "&quot;");
      ReplaceCharHit(c, e);
    }
  }

  /**
   * Because `&` is replaced first, the chain of replacements is the same as
   * escaping each character on its own: no entity is escaped twice.
   */
  lemma {:induction false} EscapeHtmlPerChar(s: string)
    ensures EscapeHtml(s) == EscapeEach(s)
    decreases |s|
  {
    if |s| > 0 {
      assert s == [s[0]] + s[1..];
      EscapeHtmlAppend([s[0]], s[1..]);
      EscapeHtmlOneChar(s[0]);
      EscapeHtmlPerChar(s[1..]);
    }
  }

  /** Characters that cannot appear in escaped output. */
  predicate IsMarkup(c: char) {
    c == '<' || c == '>' || c == '"' || c == '\''
  }

  predicate MarkupFree(s: string) {
    forall i :: 0 <= i < |s| ==> !IsMarkup(s[i])
  }

  lemma MarkupFreeAppend(a: string, b: string)
    requires MarkupFree(a) && MarkupFree(b)
    ensures MarkupFree(a + b)
  {
    forall i | 0 <= i < |a + b| ensures !IsMarkup((a + b)[i]) {
      if i >= |a| {
        assert (a + b)[i] == b[i - |a|];
      }
    }
  }

  lemma {:induction false} EscapeEachMarkupFree(s: string)
    ensures MarkupFree(EscapeEach(s))
    decreases |s|
  {
    if |s| > 0 {
      EscapeEachMarkupFree(s[1..]);
      var e := EscapeChar(s[0]);
      assert MarkupFree(e) by {
        if !IsSpecial(s[0]) {
          assert e == [s[0]];
        }
      }
      MarkupFreeAppend(e, EscapeEach(s[1..]));
    }
  }

  lemma {:induction false} EscapeEachLonger(s: string)
    ensures |EscapeEach(s)| >= |s|
    decreases |s|
  {
    if |s| > 0 {
      EscapeEachLonger(s[1..]);
    }
  }

  lemma {:induction false} EscapeEachPlain(s: string)
    requires forall i :: 0 <= i < |s| ==> !IsSpecial(s[i])
    ensures EscapeEach(s) == s
    decreases |s|
  {
    if |s| > 0 {
      EscapeEachPlain(s[1..]);
      assert s == [s[0]] + s[1..];
    }
  }

  /**
   * The output of `EscapeHtml` holds no `<`, `>`, `"` or `'`, is never
   * shorter than the input, and equals the input when it holds none of the
   * five special characters.
   */
  lemma EscapeHtmlProperties(s: string)
    ensures |EscapeHtml(s)| >= |s|
    ensures forall i :: 0 <= i < |EscapeHtml(s)| ==> !IsMarkup(EscapeHtml(s)[i])
    ensures (forall i :: 0 <= i < |s| ==> !IsSpecial(s[i])) ==> EscapeHtml(s) == s
  {
    EscapeHtmlPerChar(s);
    EscapeEachMarkupFree(s);
    EscapeEachLonger(s);
    if forall i :: 0 <= i < |s| ==> !IsSpecial(s[i]) {
      EscapeEachPlain(s);
    }
  }

  lemma UnescapeEscapeChar(c: char, rest: string)
    ensures Unescape(EscapeChar(c) + rest) == [c] + Unescape(rest)
  {
    var e := EscapeChar(c);
    var t := e + rest;
    assert t[..|e|] == e && t[|e|..] == rest;
    if c == '<' {
      assert t[1] != "&amp;"[1];
    } else if c == '>' {
      assert t[1] != "&amp;"[1] && t[1] != "&lt;"[1];
    } else if c == '"' {
      assert t[1] != "&amp;"[1] && t[1] != "&lt;"[1] && t[1] != "&gt;"[1];
    } else if c == '\'' {
      assert t[1] != "&amp;"[1] && t[1] != "&lt;"[1] && t[1] != "&gt;"[1] && t[1] != "&quot;"[1];
    }
  }

  lemma {:induction false} UnescapeEscapeEach(s: string)
    ensures Unescape(EscapeEach(s)) == s
    decreases |s|
  {
    if |s| > 0 {
      UnescapeEscapeChar(s[0], EscapeEach(s[1..]));
      UnescapeEscapeEach(s[1..]);
    }
  }

  /** Decoding what `EscapeHtml` wrote gives back the original value. */
  lemma UnescapeEscapeHtml(s: string)
    ensures Unescape(EscapeHtml(s)) == s
  {
    EscapeHtmlPerChar(s);
    UnescapeEscapeEach(s);
  }

  /**
   * The value a browser gives a double-quoted attribute written as `s`: the
   * character references are decoded, and U+0000, which `EscapeHtml` leaves
   * alone, becomes U+FFFD.
   */
  function AttributeValue(s: string): string {
    ReplaceChar(Unescape(s), '\0', "\U{FFFD}")
  }

  predicate NulFree(s: string) {
    '\0' !in s
  }

  /**
   * A value rendered into an input comes back with only its U+0000
   * characters changed, and unchanged exactly when it has none.
   */
  lemma RenderedValue(s: string)
    ensures AttributeValue(EscapeHtml(s)) == ReplaceChar(s, '\0', "\U{FFFD}")
    ensures AttributeValue(EscapeHtml(s)) == s <==> NulFree(s)
  {
    UnescapeEscapeHtml(s);
    if NulFree(s) {
      ReplaceCharAbsent(s, '\0', "\U{FFFD}");
    } else {
      ReplaceCharChanges(s, '\0', "\U{FFFD}");
    }
  }

  /** Replacing a character that occurs by a string without it changes the string. */
  lemma {:induction false} ReplaceCharChanges(s: string, c: char, rep: string)
    requires c in s && c !in rep
    ensures ReplaceChar(s, c, rep) != s
  {
    ReplaceCharAbsentIn(s, c, rep);
  }

  lemma {:induction false} ReplaceCharAbsentIn(s: string, c: char, rep: string)
    requires c !in rep
    ensures c !in ReplaceChar(s, c, rep)
    decreases |s|
  {
    if |s| > 0 {
      ReplaceCharAbsentIn(s[1..], c, rep);
    }
  }

  // ---------------------------------------------------------------------
  // Trimming, as `String.prototype.trim`
  // ---------------------------------------------------------------------

  /** ECMAScript WhiteSpace and LineTerminator code points. */
  predicate IsTrimSpace(c: char) {
    c == '\t' || c == '\n' || c == '\U{000B}' || c == '\U{000C}' || c == '\r' || c == ' ' ||
    c == '\U{00A0}' || c == '\U{1680}' || ('\U{2000}' <= c <= '\U{200A}') ||
    c == '\U{2028}' || c == '\U{2029}' || c == '\U{202F}' || c == '\U{205F}' ||
    c == '\U{3000}' || c == '\U{FEFF}'
  }

  /** No white space at either end. */
  predicate Trimmed(s: string) {
    |s| == 0 || (!IsTrimSpace(s[0]) && !IsTrimSpace(s[|s| - 1]))
  }

  /** The position of the first character at or after `i` that is not white space, or `|s|`. */
  function SkipStart(s: string, i: nat): (a: nat)
    requires i <= |s|
    ensures i <= a <= |s|
    ensures forall k :: i <= k < a ==> IsTrimSpace(s[k])
    ensures a < |s| ==> !IsTrimSpace(s[a])
    decreases |s| - i
  {
    if i < |s| && IsTrimSpace(s[i]) then SkipStart(s, i + 1) else i
  }

  /** The end of `s[a..j]` once its trailing white space is dropped. */
  function SkipEnd(s: string, a: nat, j: nat): (b: nat)
    requires a <= j <= |s|
    ensures a <= b <= j
    ensures forall k :: b <= k < j ==> IsTrimSpace(s[k])
    ensures b > a ==> !IsTrimSpace(s[b - 1])
    decreases j
  {
    if j > a && IsTrimSpace(s[j - 1]) then SkipEnd(s, a, j - 1) else j
  }

  /**
   * `String.prototype.trim`: the slice of `s` left after removing white
   * space from both ends. The result has none at either end, and
   * everything removed was white space.
   */
  function Trim(s: string): (r: string)
    ensures Trimmed(r)
    ensures var a := SkipStart(s, 0);
      a + |r| <= |s| && r == s[a..a + |r|] &&
      (forall k :: 0 <= k < a ==> IsTrimSpace(s[k])) &&
      (forall k :: a + |r| <= k < |s| ==> IsTrimSpace(s[k]))
  {
    var a := SkipStart(s, 0);
    s[a..SkipEnd(s, a, |s|)]
  }

  /** A value without white space at its ends is left as it is; so trimming twice is trimming once. */
  lemma TrimFixpoint(s: string)
    ensures Trimmed(s) ==> Trim(s) == s
    ensures Trim(Trim(s)) == Trim(s)
  {
    if Trimmed(s) {
      TrimmedFixed(s);
    }
    TrimmedFixed(Trim(s));
  }

  lemma TrimmedFixed(s: string)
    requires Trimmed(s)
    ensures Trim(s) == s
  {
    assert SkipStart(s, 0) == 0;
    assert SkipEnd(s, 0, |s|) == |s|;
    assert s[0..|s|] == s;
  }

  // ---------------------------------------------------------------------
  // Reading the form back into a configuration
  // ---------------------------------------------------------------------

  /** The `i`-th input's value, or "" when the form has no such input. */
  function InputValue(inputs: seq<string>, i: nat): string {
    if i < |inputs| then inputs[i] else ""
  }

  /** `value || null`: the empty string becomes no value. */
  function OrNull(s: string): Option<string> {
    if s == "" then None else Some(s)
  }

  /** An optional value, as the form produces it: absent, or present, non-empty and trimmed. */
  predicate NormalOption(o: Option<string>) {
    o.Some? ==> o.value != "" && Trimmed(o.value)
  }

  /** A configuration in the shape the form produces. */
  predicate Normalized(cfg: AppConfig) {
    NormalOption(cfg.monitor.value) &&
    forall i :: 0 <= i < 4 ==> Trimmed(cfg.views[i].url) && NormalOption(cfg.views[i].profile)
  }

  /** One view read from its two inputs: the id is kept, URL and profile come from the form. */
  function ReadView(v: ViewConfig, urlInput: string, profileInput: string): (r: ViewConfig)
    ensures r.id == v.id && Trimmed(r.url) && NormalOption(r.profile)
  {
    v.(url := Trim(urlInput), profile := OrNull(Trim(profileInput)))
  }

  /**
   * Keep the configuration's version and view ids; take the monitor mode as
   * selected, and the monitor value, URLs and profiles trimmed, with an
   * empty monitor value or profile becoming no value.
   */
  function ReadConfigFromUI(cfg: AppConfig, mode: MonitorMode, monitorValue: string,
                            urlInputs: seq<string>, profileInputs: seq<string>): (r: AppConfig)
    ensures r.version == cfg.version
    ensures r.monitor.mode == mode && r.monitor.value == OrNull(Trim(monitorValue))
    ensures forall i :: 0 <= i < 4 ==>
      r.views[i].id == cfg.views[i].id &&
      r.views[i].url == Trim(InputValue(urlInputs, i)) &&
      r.views[i].profile == OrNull(Trim(InputValue(profileInputs, i)))
    ensures Normalized(r)
  {
    var views := seq(4, i requires 0 <= i < 4 =>
      ReadView(cfg.views[i], InputValue(urlInputs, i), InputValue(profileInputs, i)));
    cfg.(monitor := MonitorSelector(mode, OrNull(Trim(monitorValue))), views := views)
  }

  /** The URL inputs as rendered: each value escaped into the markup and decoded by the browser. */
  function RenderedUrls(cfg: AppConfig): seq<string> {
    seq(4, i requires 0 <= i < 4 => AttributeValue(EscapeHtml(cfg.views[i].url)))
  }

  /** The profile inputs as rendered; an absent profile shows as "". */
  function RenderedProfiles(cfg: AppConfig): seq<string> {
    seq(4, i requires 0 <= i < 4 => AttributeValue(EscapeHtml(cfg.views[i].profile.GetOr(""))))
  }

  /** The values of a view that survive the browser's attribute decoding unchanged. */
  predicate RenderableView(v: ViewConfig) {
    NulFree(v.url) && NulFree(v.profile.GetOr(""))
  }

  /** One view in the form's shape, without U+0000, survives rendering and reading back. */
  lemma ReadViewRoundTrip(v: ViewConfig)
    requires Trimmed(v.url) && NormalOption(v.profile) && RenderableView(v)
    ensures ReadView(v, AttributeValue(EscapeHtml(v.url)),
                     AttributeValue(EscapeHtml(v.profile.GetOr("")))) == v
  {
    RenderedValue(v.url);
    RenderedValue(v.profile.GetOr(""));
    TrimmedFixed(v.url);
    TrimFixpoint(v.profile.GetOr(""));
  }

  /**
   * Rendering a configuration in the form's shape, without U+0000 in its
   * URLs and profiles, and reading it back without edits gives the same
   * configuration.
   */
  lemma RenderReadRoundTrip(cfg: AppConfig)
    requires Normalized(cfg)
    requires forall i :: 0 <= i < 4 ==> RenderableView(cfg.views[i])
    ensures ReadConfigFromUI(cfg, cfg.monitor.mode, cfg.monitor.value.GetOr(""),
                             RenderedUrls(cfg), RenderedProfiles(cfg)) == cfg
  {
    var r := ReadConfigFromUI(cfg, cfg.monitor.mode, cfg.monitor.value.GetOr(""),
                              RenderedUrls(cfg), RenderedProfiles(cfg));
    TrimFixpoint(cfg.monitor.value.GetOr(""));
    forall i | 0 <= i < 4 ensures r.views[i] == cfg.views[i] {
      ReadViewRoundTrip(cfg.views[i]);
    }
    assert r.views == cfg.views;
  }
}
