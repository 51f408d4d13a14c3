/** The configuration store, its backing store and its listeners, as objects. */
module ConfigStore {
  import opened Options
  import opened ConfigModel
  import opened StoreModel
  import Env = Overlay
  import Repair = ConfigRepair
  import Masking = Desanitize

  /** A callback, told apart by a number. */
  type Listener = nat

  /** One invocation of a callback. */
  datatype Call = Call(id: string, listener: Listener, event: Event)

  function CallsOf(listeners: map<string, Listener>, e: Event): set<Call> {
    set id | id in listeners :: Call(id, listeners[id], e)
  }

  /** Listeners by id.  `delivered` records every callback invocation. */
  class Emitter {
    var listeners: map<string, Listener>
    var delivered: seq<Call>

    constructor ()
      ensures listeners == map[] && delivered == []
    {
      listeners, delivered := map[], [];
    }

    /** The listener is stored under the generated id, which is returned; an id that was in use
        would lose its listener. */
    method AddListener(listener: Listener, newId: string) returns (id: string)
      modifies this`listeners
      ensures id == newId && listeners == old(listeners)[id := listener]
      ensures newId !in old(listeners) ==> listeners - {id} == old(listeners)
    {
      id := newId;
      listeners := listeners[id := listener];
    }

    method RemoveListener(id: string)
      modifies this`listeners
      ensures listeners == old(listeners) - {id}
    {
      listeners := listeners - {id};
    }

    /** Every registered listener is called once with the pair, in some order, and nobody
        else is. */
    method InvokeConfigListeners(e: Event)
      modifies this`delivered
      ensures old(delivered) <= delivered
      ensures multiset(delivered[|old(delivered)|..]) == multiset(CallsOf(listeners, e))
    {
      var rest := listeners.Keys;
      ghost var sent: set<Call> := {};
      while rest != {}
        invariant rest <= listeners.Keys
        invariant sent == set id | id in listeners.Keys - rest :: Call(id, listeners[id], e)
        invariant old(delivered) <= delivered
        invariant multiset(delivered[|old(delivered)|..]) == multiset(sent)
      {
        var id :| id in rest;
        ghost var before := delivered;
        var call := Call(id, listeners[id], e);
        delivered := delivered + [call];
        assert delivered[|old(delivered)|..] == before[|old(delivered)|..] + [call];
        sent := sent + {call};
        rest := rest - {id};
      }
      assert listeners.Keys - rest == listeners.Keys;
      assert sent == CallsOf(listeners, e);
    }
  }

  /** A backing store that keeps the configuration it is given.  How a write ends is decided
      outside. */
  class BackingStore {
    var saved: Option<Config>
    var writes: nat

    constructor (saved: Option<Config>)
      ensures this.saved == saved && writes == 0
    {
      this.saved, writes := saved, 0;
    }

    method Set(c: Config, fate: Fate)
      modifies this
      ensures if fate == Persisted then saved == Some(c) && writes == old(writes) + 1
              else saved == old(saved) && writes == old(writes)
    {
      if fate == Persisted {
        saved, writes := Some(c), writes + 1;
      }
    }
  }

  class Store {
    const setup: Setup
    const backing: BackingStore
    const emitter: Emitter
    var config: Config
    var configNoEnv: Config
    var configCustomDefaults: Option<Config>
    const readOnly: bool
    var readOnlyFF: bool
    ghost var emitted: seq<Event>

    /** A store before its first load; `NewStoreFromBacking` goes on to call `Load`. */
    constructor (setup: Setup, backing: BackingStore, custom: Option<Config>, readOnly: bool)
      ensures this.setup == setup && this.backing == backing && fresh(emitter)
      ensures View() == Initial(custom, readOnly, backing.saved).(writes := backing.writes)
    {
      this.setup, this.backing := setup, backing;
      emitter := new Emitter();
      config, configNoEnv, configCustomDefaults := map[], map[], custom;
      this.readOnly, readOnlyFF := readOnly, true;
      emitted := [];
    }

    ghost function View(): State
      reads this, backing
    {
      State(config, configNoEnv, configCustomDefaults, readOnly, readOnlyFF, backing.saved, backing.writes, emitted)
    }

    /** Each registered listener hears of the pair announced by this step, and of nothing if
        the step announced nothing. */
    twostate predicate Announced()
      reads this, emitter
    {
      && emitter.listeners == old(emitter.listeners)
      && old(emitter.delivered) <= emitter.delivered
      && var news := emitter.delivered[|old(emitter.delivered)|..];
         if emitted == old(emitted) then news == []
         else |emitted| > 0 && multiset(news) == multiset(CallsOf(emitter.listeners, emitted[|emitted| - 1]))
    }

    method Get() returns (c: Config)
      ensures c == config
    {
      c := config;
    }

    method RemoveEnvironmentOverrides(c: Config) returns (r: Config)
      ensures r == Env.Removed(c, configNoEnv, Env.OverridePaths(setup.env))
    {
      r := Env.RemoveEnvOverrides(c, configNoEnv, Env.OverridePaths(setup.env));
    }

    method SetReadOnlyFF(b: bool)
      modifies this`readOnlyFF
      ensures View() == Step(setup, old(View()), StoreModel.SetReadOnlyFF(b)).0 && readOnlyFF == b
    {
      readOnlyFF := b;
    }

    method Overlaid(c: Config) returns (r: Config)
      requires Lawful(setup)
      ensures r == Laid(setup, c)
    {
      r := Env.ApplyEnvironmentMap(setup.env, c);
      Env.OverlayIsLaid(setup.env, c, r);
    }

    method Repaired(c: Config) returns (r: Config)
      requires Lawful(setup)
      ensures r == Fixed(setup, c)
    {
      r := Repair.FixConfig(setup.rules, c);
    }

    method MakeCandidate(newCfg: Config) returns (c: Config)
      requires Lawful(setup)
      requires Masking.ScalarsAreText(setup.masks, config) && Masking.SectionsThere(setup.masks, config)
      ensures c == Candidate(setup, View(), newCfg)
    {
      c := setup.fill(newCfg);
      c := Masking.Desanitize(setup.masks, config, c);
      c := Overlaid(c);
      c := Repaired(c);
    }

    method Announce(before: Config, after: Config)
      modifies this`emitted, emitter
      ensures emitted == old(emitted) + [Event(before, after)] && Announced()
    {
      emitted := emitted + [Event(before, after)];
      emitter.InvokeConfigListeners(Event(before, after));
    }

    /** `Set` up to the point where the lock is released for the listeners. */
    method SetLocked(newCfg: Config, fate: Fate) returns (r: Result, hasChanged: bool, oldCfg: Config)
      requires Lawful(setup)
      requires Masking.ScalarsAreText(setup.masks, config) && Masking.SectionsThere(setup.masks, config)
      modifies this`config, this`configNoEnv, backing
      ensures (View(), r) == Silent(old(View()), SetStep(setup, old(View()), newCfg, fate))
      ensures SetStep(setup, old(View()), newCfg, fate).0.emitted == Notify(old(View()), oldCfg, config, hasChanged)
    {
      oldCfg, hasChanged := config, false;
      if readOnly { return ReadOnlyStore, false, oldCfg; }
      ghost var st := View();
      var c := MakeCandidate(newCfg);
      r, hasChanged := Commit(c, fate);
      ReplaceNotifies(setup, st, c, fate, hasChanged);
    }

    /** Validating and persisting the candidate, and making it current. */
    method Commit(c: Config, fate: Fate) returns (r: Result, hasChanged: bool)
      modifies this`config, this`configNoEnv, backing
      ensures (View(), r) == Silent(old(View()), Replace(setup, old(View()), c, fate))
      ensures hasChanged <==> r == Done && Shown(setup, old(View()), old(config)) != Shown(setup, old(View()), c)
    {
      if !Valid(setup, c) { return Invalid, false; }
      var n := Env.RemoveEnvOverrides(c, configNoEnv, Env.OverridePaths(setup.env));
      var oldShown, newShown, toSave := config, c, n;
      if readOnlyFF {
        oldShown, newShown, toSave := NoFlags(setup, config), NoFlags(setup, c), NoFlags(setup, n);
      }
      backing.Set(toSave, fate);
      if fate != Persisted { return NotPersisted, false; }
      hasChanged := oldShown != newShown;
      if readOnlyFF {
        config, configNoEnv := WithFlags(setup, c, config), WithFlags(setup, n, configNoEnv);
      } else {
        config, configNoEnv := c, n;
      }
      r := Done;
    }

    method Set(newCfg: Config, fate: Fate) returns (r: Result)
      requires Lawful(setup)
      requires Masking.ScalarsAreText(setup.masks, config) && Masking.SectionsThere(setup.masks, config)
      modifies this, backing, emitter
      ensures (View(), r) == SetStep(setup, old(View()), newCfg, fate)
      ensures Announced()
    {
      var hasChanged, oldCfg;
      r, hasChanged, oldCfg := SetLocked(newCfg, fate);
      if hasChanged {
        Announce(oldCfg, config);
      }
    }

    /** `Load` up to the point where the lock is released for the listeners. */
    method LoadLocked(readable: bool, fate: Fate) returns (r: Result, hasChanged: bool, oldCfg: Config)
      requires Lawful(setup)
      modifies this`config, this`configNoEnv, this`configCustomDefaults, backing
      ensures (View(), r) == Silent(old(View()), LoadStep(setup, old(View()), readable, fate))
      ensures LoadStep(setup, old(View()), readable, fate).0.emitted == Notify(old(View()), oldCfg, config, hasChanged)
    {
      oldCfg, hasChanged := config, false;
      if !readable { return Unreadable, false, oldCfg; }
      ghost var st := View();
      var n, c := LoadViews();
      assert View() == st.(custom := None);
      AdoptIgnoresCustom(setup, st, n, c, fate);
      ghost var st1 := View();
      r, hasChanged := CommitLoad(c, n, fate);
      AdoptNotifies(setup, st1, n, c, fate, hasChanged);
    }

    /** Both views of what the backing store holds; uses up the custom defaults. */
    method LoadViews() returns (n: Config, c: Config)
      requires Lawful(setup)
      modifies this`configCustomDefaults
      ensures n == LoadedNoEnv(setup, old(View())) && c == Loaded(setup, old(View()))
      ensures configCustomDefaults == None
    {
      var loaded := ReadMerged();
      n := Repaired(setup.fill(loaded));
      c := Overlaid(n);
      c := Repaired(c);
    }

    method ReadMerged() returns (loaded: Config)
      modifies this`configCustomDefaults
      ensures loaded == Read(setup, old(View())) && configCustomDefaults == None
    {
      loaded := if backing.saved.Some? then backing.saved.value else map[];
      if configCustomDefaults.Some? {
        loaded := configCustomDefaults.value + loaded;
        configCustomDefaults := None;
      }
      if setup.rules.at.siteURL !in loaded {
        loaded := loaded[setup.rules.at.siteURL := Str("")];
      }
    }

    method CommitLoad(c: Config, n: Config, fate: Fate) returns (r: Result, hasChanged: bool)
      modifies this`config, this`configNoEnv, backing
      requires configCustomDefaults == None
      ensures (View(), r) == Silent(old(View()), Adopt(setup, old(View()), n, c, fate))
      ensures hasChanged <==> r == Done && LoadChanges(setup, old(View()), c)
      ensures r == Done ==> config == c
    {
      if !Valid(setup, c) { return Invalid, false; }
      var oldShown, newShown, toSave := config, c, n;
      if readOnlyFF {
        oldShown, newShown, toSave := NoFlags(setup, config), NoFlags(setup, c), NoFlags(setup, n);
      }
      hasChanged := oldShown != newShown;
      if !readOnly && (hasChanged || backing.saved.None?) {
        backing.Set(toSave, fate);
        if fate == Broken { return NotPersisted, false; }
      }
      config, configNoEnv := c, n;
      r := Done;
    }

    method Load(readable: bool, fate: Fate) returns (r: Result)
      requires Lawful(setup)
      modifies this, backing, emitter
      ensures (View(), r) == LoadStep(setup, old(View()), readable, fate)
      ensures Announced()
    {
      var hasChanged, oldCfg;
      r, hasChanged, oldCfg := LoadLocked(readable, fate);
      if hasChanged {
        Announce(oldCfg, config);
      }
    }
  }

  /** The outcome of a step before it is announced. */
  ghost function Silent(st: State, outcome: (State, Result)): (State, Result) {
    (outcome.0.(emitted := st.emitted), outcome.1)
  }
}
