/**
 * `hvp_add_scripts_and_styles()`: registers the runtime's assets with the
 * page and hands the H5P runtime its settings bundle.
 */
module ScriptsAndStyles {
  import opened Wrappers
  import opened SeqFacts
  import opened AssetPaths

  /** Where H5P core's own scripts and styles live. */
  const LibraryDir := "/mod/hvp/library/"

  /** The plugin's own front-end script. */
  const HvpScript := "/mod/hvp/hvp.js"

  /** The fields of the content instance the assembler reads. */
  datatype Hvp = Hvp(id: string, jsonContent: string, fullscreen: string)

  /** The collaborators' state: `H5PCore::$styles`, `H5PCore::$scripts`
      and `$CFG->wwwroot`. */
  datatype Environment = Environment(coreStyles: seq<string>, coreScripts: seq<string>, wwwroot: string)

  /** `$settings['content']['cid-<id>']`; `scripts` and `styles` are absent
      unless set. */
  datatype ContentSettings = ContentSettings(
    jsonContent: string,
    fullScreen: string,
    scripts: Option<seq<string>>,
    styles: Option<seq<string>>)

  /** `$settings['core']`. */
  datatype CoreSettings = CoreSettings(scripts: seq<string>, styles: seq<string>)

  /** The settings array, one field per key; an optional field is a key that
      may be missing. */
  datatype Settings = Settings(
    content: map<string, ContentSettings>,
    contentPath: string,
    exportEnabled: bool,
    libraryPath: string,
    loadedJs: Option<seq<string>>,
    loadedCss: Option<seq<string>>,
    core: Option<CoreSettings>)

  /** One call on the page's requirements manager. */
  datatype Requirement =
    | CssUrl(url: string)
    | JsUrl(url: string, inHead: bool)
    | JsString(identifier: string, component: string)
    | JsData(variable: string, value: Settings, inHead: bool)

  /** `$PAGE->requires`: an append-only log of what was registered. */
  class PageRequirements {
    var log: seq<Requirement>

    constructor ()
      ensures log == []
    {
      log := [];
    }

    /** `css($url)` */
    method Css(url: string)
      modifies this
      ensures log == old(log) + [CssUrl(url)]
    {
      log := log + [CssUrl(url)];
    }

    /** `js($url, $inhead)` */
    method Js(url: string, inHead: bool)
      modifies this
      ensures log == old(log) + [JsUrl(url, inHead)]
    {
      log := log + [JsUrl(url, inHead)];
    }

    /** `string_for_js($identifier, $component)` */
    method StringForJs(identifier: string, component: string)
      modifies this
      ensures log == old(log) + [JsString(identifier, component)]
    {
      log := log + [JsString(identifier, component)];
    }

    /** `data_for_js($variable, $data, $inhead)` */
    method DataForJs(variable: string, value: Settings, inHead: bool)
      modifies this
      ensures log == old(log) + [JsData(variable, value, inHead)]
    {
      log := log + [JsData(variable, value, inHead)];
    }
  }

  /** Each string of `xs` with `prefix` in front, in order. */
  function PrefixAll(prefix: string, xs: seq<string>): (r: seq<string>)
    ensures |r| == |xs|
  {
    if xs == [] then [] else PrefixAll(prefix, xs[..|xs| - 1]) + [prefix + xs[|xs| - 1]]
  }

  /** The `k`-th prefixed string is the `k`-th string with the prefix. */
  lemma {:induction false} PrefixAllElements(prefix: string, xs: seq<string>)
    ensures forall k :: 0 <= k < |xs| ==> PrefixAll(prefix, xs)[k] == prefix + xs[k]
  {
    if xs != [] {
      var init := xs[..|xs| - 1];
      PrefixAllElements(prefix, init);
      assert forall k :: 0 <= k < |init| ==> init[k] == xs[k];
    }
  }

  /** One stylesheet registration per URL, in order. */
  function CssRequirements(urls: seq<string>): (r: seq<Requirement>)
    ensures |r| == |urls|
  {
    if urls == [] then [] else CssRequirements(urls[..|urls| - 1]) + [CssUrl(urls[|urls| - 1])]
  }

  /** The `k`-th stylesheet registration is for the `k`-th URL. */
  lemma {:induction false} CssRequirementsElements(urls: seq<string>)
    ensures forall k :: 0 <= k < |urls| ==> CssRequirements(urls)[k] == CssUrl(urls[k])
  {
    if urls != [] {
      var init := urls[..|urls| - 1];
      CssRequirementsElements(init);
      assert forall k :: 0 <= k < |init| ==> init[k] == urls[k];
    }
  }

  /** One head-script registration per URL, in order. */
  function JsRequirements(urls: seq<string>): (r: seq<Requirement>)
    ensures |r| == |urls|
  {
    if urls == [] then [] else JsRequirements(urls[..|urls| - 1]) + [JsUrl(urls[|urls| - 1], true)]
  }

  /** The `k`-th head-script registration is for the `k`-th URL. */
  lemma {:induction false} JsRequirementsElements(urls: seq<string>)
    ensures forall k :: 0 <= k < |urls| ==> JsRequirements(urls)[k] == JsUrl(urls[k], true)
  {
    if urls != [] {
      var init := urls[..|urls| - 1];
      JsRequirementsElements(init);
      assert forall k :: 0 <= k < |init| ==> init[k] == urls[k];
    }
  }

  /** What a run of PHP appends `$a['key'][] = $x` over `xs` leaves under
      the key: the key is created by the first append, so it is missing
      when there was nothing to append. */
  function Appended(xs: seq<string>): Option<seq<string>> {
    if xs == [] then None else Some(xs)
  }

  /** The key of the instance's entry in `$settings['content']`. */
  function ContentKey(hvp: Hvp): string {
    "cid-" + hvp.id
  }

  /** The settings array as first built, before any asset is added. */
  function InitialSettings(hvp: Hvp, env: Environment): Settings {
    Settings(
      map[ContentKey(hvp) := ContentSettings(hvp.jsonContent, hvp.fullscreen, None, None)],
      env.wwwroot + "/mod/hvp/files/content/",
      false,
      env.wwwroot + "/mod/hvp/files/libraries/",
      None, None, None)
  }

  /** The settings bundle handed to `data_for_js`. */
  function SettingsFor(hvp: Hvp, embedType: string, env: Environment, paths: FilePaths): Settings {
    var base := InitialSettings(hvp, env).(loadedJs := Appended(PrefixAll(env.wwwroot, paths.preloadedJs)));
    if embedType == "div" then
      base.(loadedCss := Appended(PrefixAll(env.wwwroot, paths.preloadedCss)))
    else
      var key := ContentKey(hvp);
      base.(
        core := Some(CoreSettings([HvpScript] + PrefixAll(LibraryDir, env.coreScripts), PrefixAll(LibraryDir, env.coreStyles))),
        content := base.content[key := base.content[key].(scripts := Some(paths.preloadedJs), styles := Some(paths.preloadedCss))])
  }

  /** The registrations made for every embed type before the settings are
      built: H5P core's styles, the plugin script, the "fullscreen" string
      and H5P core's scripts. */
  function CoreRequirements(env: Environment): seq<Requirement> {
    CssRequirements(PrefixAll(LibraryDir, env.coreStyles))
    + [JsUrl(HvpScript, true), JsString("fullscreen", "hvp")]
    + JsRequirements(PrefixAll(LibraryDir, env.coreScripts))
  }

  /** Everything `hvp_add_scripts_and_styles()` registers, in order, when
      it hands over `settings`. */
  function RequirementsLog(embedType: string, env: Environment, paths: FilePaths, settings: Settings): seq<Requirement> {
    CoreRequirements(env)
    + JsRequirements(paths.preloadedJs)
    + (if embedType == "div" then CssRequirements(paths.preloadedCss) else [])
    + [JsData("hvp", settings, true)]
  }

  /** For every embed type the log opens with one stylesheet per H5P core
      style, the plugin script, the "fullscreen" string, one head script per
      H5P core script and then one head script per preloaded script, each
      group in its list's order. */
  lemma LogOpening(embedType: string, env: Environment, paths: FilePaths, settings: Settings)
    ensures var log, ns, nc, nj := RequirementsLog(embedType, env, paths, settings),
                                   |env.coreStyles|, |env.coreScripts|, |paths.preloadedJs|;
      && |log| >= ns + nc + nj + 3
      && log[..ns] == CssRequirements(PrefixAll(LibraryDir, env.coreStyles))
      && log[ns] == JsUrl(HvpScript, true)
      && log[ns + 1] == JsString("fullscreen", "hvp")
      && log[ns + 2..ns + 2 + nc] == JsRequirements(PrefixAll(LibraryDir, env.coreScripts))
      && log[ns + 2 + nc..ns + 2 + nc + nj] == JsRequirements(paths.preloadedJs)
  {
    var log := RequirementsLog(embedType, env, paths, settings);
    var css := CssRequirements(PrefixAll(LibraryDir, env.coreStyles));
    var mid := [JsUrl(HvpScript, true), JsString("fullscreen", "hvp")];
    var js := JsRequirements(PrefixAll(LibraryDir, env.coreScripts));
    var pre := JsRequirements(paths.preloadedJs);
    var styles := if embedType == "div" then CssRequirements(paths.preloadedCss) else [];
    var rest := styles + [JsData("hvp", settings, true)];
    AppendAssoc(CoreRequirements(env) + pre, styles, [JsData("hvp", settings, true)]);
    assert log == css + mid + js + pre + rest;
    var ns, nc, nj := |env.coreStyles|, |env.coreScripts|, |paths.preloadedJs|;
    SlicesOfFive(css, mid, js, pre, rest, ns, ns + 2, ns + 2 + nc, ns + 2 + nc + nj);
    assert log[ns..ns + 2] == mid;
  }

  /** The pieces of a five-part concatenation, recovered by slicing at the
      given cut points. */
  lemma SlicesOfFive<T>(a: seq<T>, b: seq<T>, c: seq<T>, d: seq<T>, e: seq<T>, i: nat, j: nat, k: nat, l: nat)
    requires i == |a| && j == i + |b| && k == j + |c| && l == k + |d|
    ensures var s := a + b + c + d + e;
      && |s| >= l
      && s[..i] == a
      && s[i..j] == b
      && s[j..k] == c
      && s[k..l] == d
  {
    var s := a + b + c + d + e;
    assert s == a + (b + (c + (d + e)));
    assert s[i..] == b + (c + (d + e));
    assert s[j..] == c + (d + e);
    assert s[k..] == d + e;
  }

  /** After the preloaded scripts a `div` embed registers one stylesheet
      per preloaded style, in order; any other embed registers nothing more
      before the settings, so no preloaded style reaches the page. */
  lemma LogPreloadedStyles(embedType: string, env: Environment, paths: FilePaths, settings: Settings)
    ensures var log, nj := RequirementsLog(embedType, env, paths, settings), |paths.preloadedJs|;
      && (embedType == "div" ==>
            && |log| == |CoreRequirements(env)| + nj + |paths.preloadedCss| + 1
            && log[|CoreRequirements(env)| + nj..|log| - 1] == CssRequirements(paths.preloadedCss))
      && (embedType != "div" ==>
            log == CoreRequirements(env) + JsRequirements(paths.preloadedJs)
                   + [JsData("hvp", settings, true)])
  {
    var log := RequirementsLog(embedType, env, paths, settings);
    var head := CoreRequirements(env) + JsRequirements(paths.preloadedJs);
    if embedType == "div" {
      var css := CssRequirements(paths.preloadedCss);
      var last := [JsData("hvp", settings, true)];
      assert log == head + css + last;
      assert log[|head|..] == css + last;
      assert log[|head|..|log| - 1] == (css + last)[..|css|];
    } else {
      assert log == head + [] + [JsData("hvp", settings, true)];
    }
  }

  /** No registration in `xs` is a settings hand-over. */
  predicate NoSettings(xs: seq<Requirement>) {
    forall k :: 0 <= k < |xs| ==> !xs[k].JsData?
  }

  /** Registrations without a settings hand-over, joined, have none. */
  lemma NoSettingsAppend(a: seq<Requirement>, b: seq<Requirement>)
    requires NoSettings(a) && NoSettings(b)
    ensures NoSettings(a + b)
  {
    forall k | 0 <= k < |a + b| ensures !(a + b)[k].JsData? {
      if k >= |a| {
        assert (a + b)[k] == b[k - |a|];
      }
    }
  }

  /** The log always ends with the one and only settings hand-over. */
  lemma LogClosing(embedType: string, env: Environment, paths: FilePaths, settings: Settings)
    ensures var log := RequirementsLog(embedType, env, paths, settings);
      && log[|log| - 1] == JsData("hvp", settings, true)
      && forall k :: 0 <= k < |log| - 1 ==> !log[k].JsData?
  {
    var log := RequirementsLog(embedType, env, paths, settings);
    var css := CssRequirements(PrefixAll(LibraryDir, env.coreStyles));
    var mid := [JsUrl(HvpScript, true), JsString("fullscreen", "hvp")];
    var js := JsRequirements(PrefixAll(LibraryDir, env.coreScripts));
    var pre := JsRequirements(paths.preloadedJs);
    var styles := if embedType == "div" then CssRequirements(paths.preloadedCss) else [];
    var init := css + mid + js + pre + styles;
    CssRequirementsElements(PrefixAll(LibraryDir, env.coreStyles));
    JsRequirementsElements(PrefixAll(LibraryDir, env.coreScripts));
    JsRequirementsElements(paths.preloadedJs);
    CssRequirementsElements(paths.preloadedCss);
    NoSettingsAppend(css, mid);
    NoSettingsAppend(css + mid, js);
    NoSettingsAppend(css + mid + js, pre);
    NoSettingsAppend(css + mid + js + pre, styles);
    assert log == init + [log[|log| - 1]];
    assert log[..|log| - 1] == init;
  }

  /** What the settings hold for every embed type: the one content entry
      with the instance's JSON and fullscreen flag, the two file-area paths,
      export off, and `loadedJs` mirroring the preloaded scripts under the
      site root (the key is missing when there are none). */
  lemma SettingsCommon(hvp: Hvp, embedType: string, env: Environment, paths: FilePaths)
    ensures var s, key := SettingsFor(hvp, embedType, env, paths), "cid-" + hvp.id;
      && s.content.Keys == {key}
      && s.content[key].jsonContent == hvp.jsonContent
      && s.content[key].fullScreen == hvp.fullscreen
      && s.contentPath == env.wwwroot + "/mod/hvp/files/content/"
      && s.libraryPath == env.wwwroot + "/mod/hvp/files/libraries/"
      && !s.exportEnabled
      && (s.loadedJs.Some? <==> paths.preloadedJs != [])
      && (s.loadedJs.Some? ==>
            && |s.loadedJs.value| == |paths.preloadedJs|
            && forall i :: 0 <= i < |paths.preloadedJs| ==> s.loadedJs.value[i] == env.wwwroot + paths.preloadedJs[i])
  {
    PrefixAllElements(env.wwwroot, paths.preloadedJs);
  }

  /** A `div` embed: `loadedCss` mirrors the preloaded styles under the site
      root (missing when there are none), and there is no `core` entry and
      no per-content `scripts` or `styles`. */
  lemma DivSettings(hvp: Hvp, env: Environment, paths: FilePaths)
    ensures var s, key := SettingsFor(hvp, "div", env, paths), "cid-" + hvp.id;
      && s.core == None
      && s.content == map[key := ContentSettings(hvp.jsonContent, hvp.fullscreen, None, None)]
      && (s.loadedCss.Some? <==> paths.preloadedCss != [])
      && (s.loadedCss.Some? ==>
            && |s.loadedCss.value| == |paths.preloadedCss|
            && forall i :: 0 <= i < |paths.preloadedCss| ==> s.loadedCss.value[i] == env.wwwroot + paths.preloadedCss[i])
  {
    PrefixAllElements(env.wwwroot, paths.preloadedCss);
  }

  /** Any other embed: no `loadedCss`; `core` lists H5P core's styles, and
      the plugin script followed by H5P core's scripts, under the library
      directory; the content entry carries the preloaded lists unprefixed. */
  lemma StandaloneSettings(hvp: Hvp, embedType: string, env: Environment, paths: FilePaths)
    requires embedType != "div"
    ensures var s, key := SettingsFor(hvp, embedType, env, paths), "cid-" + hvp.id;
      && s.loadedCss == None
      && s.content == map[key := ContentSettings(hvp.jsonContent, hvp.fullscreen,
                                                 Some(paths.preloadedJs), Some(paths.preloadedCss))]
      && s.core.Some?
      && |s.core.value.styles| == |env.coreStyles|
      && (forall k :: 0 <= k < |env.coreStyles| ==> s.core.value.styles[k] == LibraryDir + env.coreStyles[k])
      && |s.core.value.scripts| == |env.coreScripts| + 1
      && s.core.value.scripts[0] == HvpScript
      && (forall k :: 0 <= k < |env.coreScripts| ==> s.core.value.scripts[k + 1] == LibraryDir + env.coreScripts[k])
  {
    PrefixAllElements(LibraryDir, env.coreStyles);
    PrefixAllElements(LibraryDir, env.coreScripts);
  }

  /** The loop over H5P core's styles: each is registered under the
      library directory. */
  method RegisterCoreStyles(page: PageRequirements, env: Environment)
    modifies page
    ensures page.log == old(page.log) + CssRequirements(PrefixAll(LibraryDir, env.coreStyles))
  {
    ghost var coreCss := CssRequirements(PrefixAll(LibraryDir, env.coreStyles));
    PrefixAllElements(LibraryDir, env.coreStyles);
    CssRequirementsElements(PrefixAll(LibraryDir, env.coreStyles));
    for i := 0 to |env.coreStyles|
      invariant page.log == old(page.log) + coreCss[..i]
    {
      page.Css(LibraryDir + env.coreStyles[i]);
      TakeSnoc(coreCss, i);
      AppendAssoc(old(page.log), coreCss[..i], [coreCss[i]]);
    }
    assert coreCss[..|env.coreStyles|] == coreCss;
  }

  /** The loop over H5P core's scripts: each is registered in the head
      under the library directory. */
  method RegisterCoreScripts(page: PageRequirements, env: Environment)
    modifies page
    ensures page.log == old(page.log) + JsRequirements(PrefixAll(LibraryDir, env.coreScripts))
  {
    ghost var coreJs := JsRequirements(PrefixAll(LibraryDir, env.coreScripts));
    PrefixAllElements(LibraryDir, env.coreScripts);
    JsRequirementsElements(PrefixAll(LibraryDir, env.coreScripts));
    for i := 0 to |env.coreScripts|
      invariant page.log == old(page.log) + coreJs[..i]
    {
      page.Js(LibraryDir + env.coreScripts[i], true);
      TakeSnoc(coreJs, i);
      AppendAssoc(old(page.log), coreJs[..i], [coreJs[i]]);
    }
    assert coreJs[..|env.coreScripts|] == coreJs;
  }

  /** The first four statements of `hvp_add_scripts_and_styles()`. */
  method RegisterCoreAssets(page: PageRequirements, env: Environment)
    modifies page
    ensures page.log == old(page.log) + CoreRequirements(env)
  {
    RegisterCoreStyles(page, env);
    ghost var afterStyles := page.log;
    page.Js(HvpScript, true);
    page.StringForJs("fullscreen", "hvp");
    ghost var opening := page.log;
    RegisterCoreScripts(page, env);
    ghost var css := CssRequirements(PrefixAll(LibraryDir, env.coreStyles));
    ghost var js := JsRequirements(PrefixAll(LibraryDir, env.coreScripts));
    assert opening == old(page.log) + css + [JsUrl(HvpScript, true), JsString("fullscreen", "hvp")];
    AppendAssoc(old(page.log), css + [JsUrl(HvpScript, true), JsString("fullscreen", "hvp")], js);
  }

  /** The loop over the preloaded scripts: each is registered in the head
      and, prefixed with the site root, appended to `loadedJs`. */
  method RegisterPreloadedScripts(page: PageRequirements, scripts: seq<string>, wwwroot: string, settings: Settings)
    returns (result: Settings)
    requires settings.loadedJs == None
    modifies page
    ensures page.log == old(page.log) + JsRequirements(scripts)
    ensures result == settings.(loadedJs := Appended(PrefixAll(wwwroot, scripts)))
  {
    ghost var loaded := PrefixAll(wwwroot, scripts);
    ghost var registered := JsRequirements(scripts);
    PrefixAllElements(wwwroot, scripts);
    JsRequirementsElements(scripts);
    result := settings;
    for i := 0 to |scripts|
      invariant page.log == old(page.log) + registered[..i]
      invariant result == settings.(loadedJs := Appended(loaded[..i]))
    {
      var script := scripts[i];
      page.Js(script, true);
      result := result.(loadedJs := Some(result.loadedJs.GetOr([]) + [wwwroot + script]));
      assert registered[..i + 1] == registered[..i] + [registered[i]];
      assert loaded[..i + 1] == loaded[..i] + [loaded[i]];
    }
    assert registered[..|scripts|] == registered;
    assert loaded[..|scripts|] == loaded;
  }

  /** The `div` branch: each preloaded style is registered and, prefixed
      with the site root, appended to `loadedCss`. */
  method RegisterPreloadedStyles(page: PageRequirements, styles: seq<string>, wwwroot: string, settings: Settings)
    returns (result: Settings)
    requires settings.loadedCss == None
    modifies page
    ensures page.log == old(page.log) + CssRequirements(styles)
    ensures result == settings.(loadedCss := Appended(PrefixAll(wwwroot, styles)))
  {
    ghost var loaded := PrefixAll(wwwroot, styles);
    ghost var registered := CssRequirements(styles);
    PrefixAllElements(wwwroot, styles);
    CssRequirementsElements(styles);
    result := settings;
    for i := 0 to |styles|
      invariant page.log == old(page.log) + registered[..i]
      invariant result == settings.(loadedCss := Appended(loaded[..i]))
    {
      var style := styles[i];
      page.Css(style);
      result := result.(loadedCss := Some(result.loadedCss.GetOr([]) + [wwwroot + style]));
      assert registered[..i + 1] == registered[..i] + [registered[i]];
      assert loaded[..i + 1] == loaded[..i] + [loaded[i]];
    }
    assert registered[..|styles|] == registered;
    assert loaded[..|styles|] == loaded;
  }

  /** The other branch's `$settings['core']`: H5P core's styles, and the
      plugin script followed by H5P core's scripts, all under the library
      directory. Whatever `core` held before is replaced. */
  method AddCoreSettings(settings: Settings, env: Environment) returns (result: Settings)
    ensures result.core.Some?
    ensures var core := result.core.value;
      && |core.styles| == |env.coreStyles|
      && (forall k :: 0 <= k < |env.coreStyles| ==> core.styles[k] == LibraryDir + env.coreStyles[k])
      && |core.scripts| == |env.coreScripts| + 1
      && core.scripts[0] == HvpScript
      && (forall k :: 0 <= k < |env.coreScripts| ==> core.scripts[k + 1] == LibraryDir + env.coreScripts[k])
    ensures result == settings.(core := Some(CoreSettings([HvpScript] + PrefixAll(LibraryDir, env.coreScripts),
                                                          PrefixAll(LibraryDir, env.coreStyles))))
  {
    result := settings.(core := Some(CoreSettings([], [])));
    for i := 0 to |env.coreStyles|
      invariant result == settings.(core := result.core)
      invariant result.core.Some? && result.core.value.scripts == []
      invariant |result.core.value.styles| == i
      invariant forall k :: 0 <= k < i ==> result.core.value.styles[k] == LibraryDir + env.coreStyles[k]
    {
      var core := result.core.value;
      result := result.(core := Some(core.(styles := core.styles + [LibraryDir + env.coreStyles[i]])));
    }
    var core := result.core.value;
    result := result.(core := Some(core.(scripts := core.scripts + [HvpScript])));
    for i := 0 to |env.coreScripts|
      invariant result == settings.(core := result.core)
      invariant result.core.Some? && result.core.value.styles == core.styles
      invariant |result.core.value.scripts| == i + 1 && result.core.value.scripts[0] == HvpScript
      invariant forall k :: 0 <= k < i ==> result.core.value.scripts[k + 1] == LibraryDir + env.coreScripts[k]
    {
      var c := result.core.value;
      result := result.(core := Some(c.(scripts := c.scripts + [LibraryDir + env.coreScripts[i]])));
    }
    PrefixAllElements(LibraryDir, env.coreStyles);
    PrefixAllElements(LibraryDir, env.coreScripts);
    assert result.core.value.styles == PrefixAll(LibraryDir, env.coreStyles);
    assert result.core.value.scripts == [HvpScript] + PrefixAll(LibraryDir, env.coreScripts);
  }

  /** Appending four pieces one after the other appends their concatenation. */
  lemma LogAssembly(log: seq<Requirement>, a: seq<Requirement>, b: seq<Requirement>, c: seq<Requirement>, d: seq<Requirement>)
    ensures log + a + b + c + d == log + (a + b + c + d)
  {
  }

  /** The branch on the embed type: a `div` embed registers the preloaded
      styles with the page; any other embed instead receives H5P core's
      assets and the instance's preloaded assets through the settings. */
  method AddEmbedAssets(
    page: PageRequirements, hvp: Hvp, embedType: string, env: Environment, filePaths: FilePaths, settings: Settings)
    returns (result: Settings)
    requires settings == InitialSettings(hvp, env).(loadedJs := Appended(PrefixAll(env.wwwroot, filePaths.preloadedJs)))
    modifies page
    ensures page.log == old(page.log) + (if embedType == "div" then CssRequirements(filePaths.preloadedCss) else [])
    ensures result == SettingsFor(hvp, embedType, env, filePaths)
  {
    if embedType == "div" {
      result := RegisterPreloadedStyles(page, filePaths.preloadedCss, env.wwwroot, settings);
    } else {
      var key := "cid-" + hvp.id;
      result := AddCoreSettings(settings, env);
      result := result.(content := result.content[key := result.content[key].(scripts := Some(filePaths.preloadedJs))]);
      result := result.(content := result.content[key := result.content[key].(styles := Some(filePaths.preloadedCss))]);
      assert page.log == old(page.log) + [];
    }
  }

  /** `hvp_add_scripts_and_styles($hvp, $embedtype)`, where `rows` is the
      dependency query's result for the instance and `libraryToString` is H5P
      core's naming function. */
  method AddScriptsAndStyles(
    page: PageRequirements, hvp: Hvp, embedType: string, env: Environment,
    rows: seq<LibraryRow>, libraryToString: LibraryNamer)
    modifies page
    ensures var paths := FilePathsOf(libraryToString, rows);
      page.log == old(page.log) + RequirementsLog(embedType, env, paths, SettingsFor(hvp, embedType, env, paths))
  {
    RegisterCoreAssets(page, env);

    var settings := Settings(
      map["cid-" + hvp.id := ContentSettings(hvp.jsonContent, hvp.fullscreen, None, None)],
      env.wwwroot + "/mod/hvp/files/content/",
      false,
      env.wwwroot + "/mod/hvp/files/libraries/",
      None, None, None);

    var filePaths := GetFilePaths(rows, libraryToString);
    settings := RegisterPreloadedScripts(page, filePaths.preloadedJs, env.wwwroot, settings);
    settings := AddEmbedAssets(page, hvp, embedType, env, filePaths, settings);
    ghost var styles := if embedType == "div" then CssRequirements(filePaths.preloadedCss) else [];
    page.DataForJs("hvp", settings, true);
    LogAssembly(old(page.log), CoreRequirements(env), JsRequirements(filePaths.preloadedJs),
                styles, [JsData("hvp", settings, true)]);
  }
}
