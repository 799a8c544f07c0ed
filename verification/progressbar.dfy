/** One rendered `progress-bar` block: built from the block text, the note path and the progress
    memory, then driven by mouse events. A left click steps the progress, a right click resets it
    when the plugin had right-click reset enabled at the time the handlers were installed, and
    every change is written back to the memory under the bar's key and refreshes the legend.
 */
module ProgressBar {
  import opened Results
  import opened JsNumber
  import opened JsString
  import ConfigParser
  import opened Persistence
  import opened ProgressState
  import opened Legend

  /** A bar: its parsed configuration, its key in the memory and its current progress. */
  datatype Bar = Bar(config: ConfigParser.Config, key: string, progress: Num)

  /** The bar's progress is what the memory holds for it today. */
  predicate Synced(bar: Bar, store: Store, today: string) {
    LoadProgress(store, bar.key, today) == bar.progress
  }

  /** `new ProgressBar(source, plugin, notePath)`: parse the block, then load today's progress,
      which replaces whatever `initialProgress` said. `token` stands for the random text of a
      fallback name. */
  function NewBar(settings: ConfigParser.Settings, source: string, notePath: string, token: string, store: Store, today: string)
    : (r: Result<Bar, ConfigParser.ParseError>)
    ensures r.Failure? <==> ConfigParser.Parse(settings, source, token).Failure?
    ensures r.Success? ==> r.value.config == ConfigParser.Parse(settings, source, token).value
    ensures r.Success? ==> r.value.key == MemoryKey(notePath, r.value.config.name)
    ensures r.Success? ==> Synced(r.value, store, today)
  {
    var config :- ConfigParser.Parse(settings, source, token);
    var key := MemoryKey(notePath, config.name);
    Success(Bar(config, key, LoadProgress(store, key, today)))
  }

  /** A bar's starting progress is the day's saved progress or 0: `initialProgress` never shows. */
  lemma NewBarIgnoresInitialProgress(settings: ConfigParser.Settings, source: string, notePath: string, token: string, store: Store, today: string)
    ensures var r := NewBar(settings, source, notePath, token, store, today);
            r.Success? ==> r.value.progress == if HasFreshRecord(store, r.value.key, today) then store[r.value.key].progress else Int(0)
  {
  }

  /** Pruning the memory at load time is invisible to the bars rendered that day. */
  lemma NewBarAfterPrune(settings: ConfigParser.Settings, source: string, notePath: string, token: string, store: Store, today: string)
    ensures NewBar(settings, source, notePath, token, Prune(store, today), today)
         == NewBar(settings, source, notePath, token, store, today)
  {
    var r := ConfigParser.Parse(settings, source, token);
    if r.Success? {
      LoadAfterPrune(store, MemoryKey(notePath, r.value.name), today);
    }
  }

  /** Two bars whose block text falls back to a generated name get different keys whenever their
      tokens differ, so such a bar starts from 0 again each time it is rendered. */
  lemma FallbackKeysDiffer(notePath: string, token1: string, token2: string)
    requires token1 != token2
    ensures MemoryKey(notePath, "bar-" + token1) != MemoryKey(notePath, "bar-" + token2)
  {
    var k1, k2 := MemoryKey(notePath, "bar-" + token1), MemoryKey(notePath, "bar-" + token2);
    assert k1[|notePath| + 5..] == token1;
    assert k2[|notePath| + 5..] == token2;
  }

  // ---------------------------------------------------------------------------------------------
  // Legend
  // ---------------------------------------------------------------------------------------------

  /** `if (this.legend)`: a bar has a legend element when its legend text is present and non-empty. */
  predicate ShowsLegend(config: ConfigParser.Config) {
    config.legend.Some? && config.legend.value != []
  }

  /** The legend text of the bar, with the plugin's current terms; `None` when it has no legend. */
  function LegendText(bar: Bar, settings: ConfigParser.Settings): (t: Option<string>)
    ensures t.Some? <==> ShowsLegend(bar.config)
  {
    if ShowsLegend(bar.config) then
      Some(RenderLegend(bar.config.legend.value, settings.progressTerm, settings.totalTerm, bar.progress, bar.config.total))
    else
      None
  }

  // ---------------------------------------------------------------------------------------------
  // Transitions
  // ---------------------------------------------------------------------------------------------

  /** What an event leaves behind: the bar, the memory, and the legend text when the legend element
      was rewritten. */
  datatype Outcome = Outcome(bar: Bar, store: Store, legend: Option<string>)

  /** Set the progress, refresh the legend if there is one, and save. */
  function Commit(bar: Bar, settings: ConfigParser.Settings, store: Store, today: string, progress: Num): (r: Outcome)
    ensures r.bar == bar.(progress := progress)
    ensures r.store == SaveProgress(store, bar.key, today, progress)
    ensures r.legend == LegendText(r.bar, settings)
    ensures Synced(r.bar, r.store, today)
    ensures r.bar.config == bar.config && r.bar.key == bar.key && r.bar.progress == progress
    ensures bar.key in r.store && r.store[bar.key] == Record(today, progress)
    ensures forall k :: k != bar.key ==> (k in r.store <==> k in store) && (k in store ==> r.store[k] == store[k])
    ensures r.legend.Some? <==> ShowsLegend(bar.config)
    ensures r.legend.Some? ==> r.legend.value == RenderLegend(bar.config.legend.value, settings.progressTerm, settings.totalTerm,
                                                              progress, bar.config.total)
  {
    var next := bar.(progress := progress);
    Outcome(next, SaveProgress(store, bar.key, today, progress), LegendText(next, settings))
  }

  /** `incrementProgress`. */
  function IncrementProgress(bar: Bar, settings: ConfigParser.Settings, store: Store, today: string): Outcome {
    Commit(bar, settings, store, today, Increment(bar.progress, bar.config.total, bar.config.increment))
  }

  /** `resetProgress`. */
  function ResetProgress(bar: Bar, settings: ConfigParser.Settings, store: Store, today: string): Outcome {
    Commit(bar, settings, store, today, Reset)
  }

  /** The listeners `initializeProgressBarClick` installs: the click listener always, the
      context-menu listener only when right-click reset is enabled at that moment. */
  datatype Handlers = Handlers(resetOnContextMenu: bool)

  function InstallHandlers(settings: ConfigParser.Settings): (h: Handlers)
    ensures h.resetOnContextMenu <==> settings.enableResetOnRightClick
  {
    Handlers(settings.enableResetOnRightClick)
  }

  /** The context-menu listener follows the setting as it was when the handlers were installed:
      switching right-click reset on or off afterwards changes nothing for a bar already rendered.
      With the listener installed a right click resets and saves 0; without it the bar, the memory
      and the legend are left alone. */
  lemma ContextMenuFollowsInstalledSetting(installed: ConfigParser.Settings, current: ConfigParser.Settings, bar: Bar, store: Store,
                                           today: string)
    ensures var r := Dispatch(InstallHandlers(installed), current, bar, store, today, ContextMenu);
            installed.enableResetOnRightClick ==> r.bar.progress == Int(0) && r.store == SaveProgress(store, bar.key, today, Int(0))
    ensures var r := Dispatch(InstallHandlers(installed), current, bar, store, today, ContextMenu);
            !installed.enableResetOnRightClick ==> r == Outcome(bar, store, None)
  {
  }

  /** A mouse event on the bar's container: a `click` with its button number, or a `contextmenu`. */
  datatype Event = Click(button: int) | ContextMenu

  /** The events that reach a transition: a primary-button click, and a context-menu event when
      its listener was installed. */
  predicate Handled(handlers: Handlers, event: Event) {
    event == Click(0) || (event == ContextMenu && handlers.resetOnContextMenu)
  }

  /** Deliver one event to the bar's listeners. */
  function Dispatch(handlers: Handlers, settings: ConfigParser.Settings, bar: Bar, store: Store, today: string, event: Event): (r: Outcome)
    ensures r.bar.config == bar.config && r.bar.key == bar.key
    ensures !Handled(handlers, event) ==> r == Outcome(bar, store, None)
    ensures Handled(handlers, event) ==> r.store == SaveProgress(store, bar.key, today, r.bar.progress)
    ensures event == Click(0) ==> r.bar.progress == Increment(bar.progress, bar.config.total, bar.config.increment)
    ensures event == ContextMenu && handlers.resetOnContextMenu ==> r.bar.progress == Int(0)
  {
    match event
    case Click(button) =>
      if button == 0 then IncrementProgress(bar, settings, store, today) else Outcome(bar, store, None)
    case ContextMenu =>
      if handlers.resetOnContextMenu then ResetProgress(bar, settings, store, today) else Outcome(bar, store, None)
  }

  /** Positive total, non-negative increment: the configurations under which a bar stays in range. */
  predicate WellConfigured(config: ConfigParser.Config) {
    config.total.Int? && 0 < config.total.value && config.increment.Int? && 0 <= config.increment.value
  }

  predicate NonNegative(x: Num) {
    x.Int? && 0 <= x.value
  }

  /** An event changes at most the bar's own entry in the memory. */
  lemma DispatchFrame(handlers: Handlers, settings: ConfigParser.Settings, bar: Bar, store: Store, today: string, event: Event, k: string)
    requires k != bar.key
    ensures var r := Dispatch(handlers, settings, bar, store, today, event);
            (k in r.store <==> k in store) && (k in store ==> r.store[k] == store[k])
  {
  }

  /** After any event the memory agrees with the bar, and a handled event leaves a well-configured
      bar within `0..total`. */
  lemma DispatchKeepsBar(handlers: Handlers, settings: ConfigParser.Settings, bar: Bar, store: Store, today: string, event: Event)
    requires Synced(bar, store, today)
    ensures var r := Dispatch(handlers, settings, bar, store, today, event);
            Synced(r.bar, r.store, today)
    ensures var r := Dispatch(handlers, settings, bar, store, today, event);
            WellConfigured(bar.config) && NonNegative(bar.progress) && Handled(handlers, event)
            ==> InRange(r.bar.progress, bar.config.total)
  {
    var r := Dispatch(handlers, settings, bar, store, today, event);
    if Handled(handlers, event) {
      LoadAfterSave(store, bar.key, today, r.bar.progress);
      if WellConfigured(bar.config) && NonNegative(bar.progress) {
        if event == Click(0) {
          IncrementInRange(bar.progress, bar.config.total, bar.config.increment);
        }
      }
    }
  }

  /** The legend is rewritten exactly when a handled event reaches a bar with a legend, and then
      shows the new progress. */
  lemma DispatchLegend(handlers: Handlers, settings: ConfigParser.Settings, bar: Bar, store: Store, today: string, event: Event)
    ensures var r := Dispatch(handlers, settings, bar, store, today, event);
            r.legend.Some? <==> Handled(handlers, event) && ShowsLegend(bar.config)
    ensures var r := Dispatch(handlers, settings, bar, store, today, event);
            r.legend.Some? ==> r.legend.value == RenderLegend(bar.config.legend.value, settings.progressTerm, settings.totalTerm,
                                                              r.bar.progress, bar.config.total)
  {
  }

  /** A block without a `total` line has an undefined total, so every left click leaves the bar
      at 0. */
  lemma NoTotalLineClicksToZero(settings: ConfigParser.Settings, source: string, notePath: string, token: string, store: Store, today: string,
                                handlers: Handlers)
    ensures var r := NewBar(settings, source, notePath, token, store, today);
            ConfigParser.LastValue(ConfigParser.Entries(SplitItems(source)), ConfigParser.Total) == None && r.Success? ==>
              Dispatch(handlers, settings, r.value, store, today, Click(0)).bar.progress == Int(0)
  {
    ConfigParser.ParseMeaning(settings, source, token);
    var r := NewBar(settings, source, notePath, token, store, today);
    if ConfigParser.LastValue(ConfigParser.Entries(SplitItems(source)), ConfigParser.Total) == None && r.Success? {
      var bar := r.value;
      assert bar.config.total == Undefined;
      MissingTotalPinsAtZero(bar.progress, bar.config.increment);
    }
  }

  // ---------------------------------------------------------------------------------------------
  // Sessions
  // ---------------------------------------------------------------------------------------------

  datatype State = State(bar: Bar, store: Store)

  /** Deliver a sequence of events in order, all on the same day. */
  function Run(handlers: Handlers, settings: ConfigParser.Settings, bar: Bar, store: Store, today: string, events: seq<Event>): State
    decreases |events|
  {
    if events == [] then State(bar, store)
    else
      var r := Dispatch(handlers, settings, bar, store, today, events[0]);
      Run(handlers, settings, r.bar, r.store, today, events[1..])
  }

  /** Over any sequence of events the bar keeps its configuration and key, stays in step with the
      memory, keeps a non-negative progress when well configured, and no other entry of the memory
      changes. */
  lemma {:induction false} RunKeepsBar(handlers: Handlers, settings: ConfigParser.Settings, bar: Bar, store: Store, today: string, events: seq<Event>)
    requires Synced(bar, store, today)
    ensures var s := Run(handlers, settings, bar, store, today, events);
            s.bar.config == bar.config && s.bar.key == bar.key && Synced(s.bar, s.store, today)
    ensures var s := Run(handlers, settings, bar, store, today, events);
            WellConfigured(bar.config) && NonNegative(bar.progress) ==> NonNegative(s.bar.progress)
    ensures var s := Run(handlers, settings, bar, store, today, events);
            forall k :: k != bar.key ==> (k in s.store <==> k in store) && (k in store ==> s.store[k] == store[k])
    decreases |events|
  {
    if events != [] {
      var r := Dispatch(handlers, settings, bar, store, today, events[0]);
      DispatchKeepsBar(handlers, settings, bar, store, today, events[0]);
      forall k | k != bar.key
        ensures (k in r.store <==> k in store) && (k in store ==> r.store[k] == store[k])
      {
        DispatchFrame(handlers, settings, bar, store, today, events[0], k);
      }
      RunKeepsBar(handlers, settings, r.bar, r.store, today, events[1..]);
    }
  }

  /** Rendering a named block again later the same day, with whatever fresh token the new
      constructor draws, shows the progress the bar last had; on any other day it shows 0. A block
      that fell back to a generated name gets a new key from a different token, so the new bar
      does not see what the old one saved. */
  lemma RerenderRestoresProgress(settings: ConfigParser.Settings, source: string, notePath: string, token: string, token': string,
                                 store: Store, today: string, handlers: Handlers, events: seq<Event>, day: string)
    ensures var r := NewBar(settings, source, notePath, token, store, today);
            r.Success? && ConfigParser.NamedBlock(settings, source) ==>
              var s := Run(handlers, settings, r.value, store, today, events);
              NewBar(settings, source, notePath, token', s.store, today) == Success(s.bar)
    ensures var r := NewBar(settings, source, notePath, token, store, today);
            r.Success? && ConfigParser.NamedBlock(settings, source) && day != today && !HasFreshRecord(store, r.value.key, day) ==>
              var s := Run(handlers, settings, r.value, store, today, events);
              NewBar(settings, source, notePath, token', s.store, day).value.progress == Int(0)
    ensures var r := NewBar(settings, source, notePath, token, store, today);
            r.Success? && !ConfigParser.NamedBlock(settings, source) && token != token' ==>
              var s := Run(handlers, settings, r.value, store, today, events);
              NewBar(settings, source, notePath, token', s.store, today).value.key != r.value.key
  {
    var r := NewBar(settings, source, notePath, token, store, today);
    ConfigParser.ParseIgnoresToken(settings, source, token, token');
    ConfigParser.ParseIgnoresToken(settings, source, token', token);
    if r.Success? {
      var bar := r.value;
      RunKeepsBar(handlers, settings, bar, store, today, events);
      var s := Run(handlers, settings, bar, store, today, events);
      if ConfigParser.NamedBlock(settings, source) && day != today && !HasFreshRecord(store, bar.key, day) {
        RunStaysOnDay(handlers, settings, bar, store, today, events, day);
      }
      if !ConfigParser.NamedBlock(settings, source) && token != token' {
        FallbackKeysDiffer(notePath, token, token');
      }
    }
  }

  /** Every record a same-day session writes is dated that day, so the bar's entry is fresh on
      another day only if it already was. */
  lemma {:induction false} RunStaysOnDay(handlers: Handlers, settings: ConfigParser.Settings, bar: Bar, store: Store, today: string,
                                         events: seq<Event>, day: string)
    requires day != today
    ensures var s := Run(handlers, settings, bar, store, today, events);
            HasFreshRecord(s.store, bar.key, day) ==> HasFreshRecord(store, bar.key, day)
    decreases |events|
  {
    if events != [] {
      var r := Dispatch(handlers, settings, bar, store, today, events[0]);
      RunStaysOnDay(handlers, settings, r.bar, r.store, today, events[1..], day);
    }
  }
}
