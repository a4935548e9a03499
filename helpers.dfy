// The configuration loader: one shared instance whose configuration is read from the
// YAML file the first time it is constructed, and a nested lookup with a default.

module Helpers {
  import opened Wrappers
  import opened PyValues

  /** What reading and parsing the YAML file gave: the parsed document, or an exception. */
  datatype LoadResult = Parsed(document: Value) | LoadFailed(reason: string)

  /** `_load_config`: the parsed document, or `{}` when reading or parsing raised. */
  function LoadedConfig(load: LoadResult): (r: Value)
    ensures load.LoadFailed? ==> r == Obj([])
    ensures load.Parsed? ==> r == load.document
  {
    match load
    case Parsed(document) => document
    case LoadFailed(_) => Obj([])
  }

  /**
   * What `get(*keys, default=default)` returns when the walk starts at `value`: stop
   * with `default` at a value that is not a dict or at a `None`; an absent key yields
   * `default` itself, and the walk goes on from there.
   */
  function Resolve(value: Value, keys: seq<string>, default: Value): (r: Value)
    ensures keys == [] ==> r == value
    ensures keys != [] && !value.Obj? ==> r == default
    decreases |keys|
  {
    if keys == [] then value
    else if !value.Obj? then default
    else
      var next := Get(value.entries, keys[0], default);
      if next == Null then default else Resolve(next, keys[1..], default)
  }

  /** The value at the end of a path on which every key is present and none maps to `None`. */
  function Walk(value: Value, keys: seq<string>): (r: Option<Value>)
    ensures keys == [] ==> r == Some(value)
    decreases |keys|
  {
    if keys == [] then Some(value)
    else if !value.Obj? then None
    else
      match Lookup(value.entries, keys[0])
      case None => None
      case Some(next) => if next == Null then None else Walk(next, keys[1..])
  }

  /**
   * The singleton. `config` is the class attribute `_config`; `Null` is its initial `None`.
   * Every `ConfigLoader()` returns this one object and runs `Construct` on it.
   */
  class ConfigLoader {
    var config: Value

    /** The first `ConfigLoader()` allocates the instance; nothing is loaded yet. */
    constructor()
      ensures config == Null
    {
      config := Null;
    }

    /** `__init__`: load only while nothing has been loaded. */
    method Construct(load: LoadResult)
      modifies this
      ensures old(config) != Null ==> config == old(config)
      ensures old(config) == Null ==> config == LoadedConfig(load)
    {
      if config == Null {
        config := LoadedConfig(load);
      }
    }

    /** `reload`: read the file again, unconditionally. */
    method Reload(load: LoadResult)
      modifies this
      ensures config == LoadedConfig(load)
    {
      config := LoadedConfig(load);
    }

    /** `get`: walk `keys` through nested dicts, falling back to `default`. */
    method Get(keys: seq<string>, default: Value) returns (r: Value)
      ensures r == Resolve(config, keys, default)
    {
      var value := config;
      for i := 0 to |keys|
        invariant Resolve(value, keys[i..], default) == Resolve(config, keys, default)
      {
        assert keys[i..][0] == keys[i] && keys[i..][1..] == keys[i + 1..];
        if !value.Obj? {
          return default;
        }
        value := PyValues.Get(value.entries, keys[i], default);
        if value == Null {
          return default;
        }
      }
      assert keys[|keys|..] == [];
      return value;
    }
  }

  // ---------------------------------------------------------------- lemmas

  /** Along a complete path the lookup returns the nested value, whatever the default. */
  lemma {:induction false} ResolveFollowsPath(value: Value, keys: seq<string>, default: Value)
    requires Walk(value, keys).Some?
    ensures Resolve(value, keys, default) == Walk(value, keys).value
    decreases |keys|
  {
    if keys != [] {
      var next := Lookup(value.entries, keys[0]).value;
      assert Get(value.entries, keys[0], default) == next;
      ResolveFollowsPath(next, keys[1..], default);
    }
  }

  /**
   * Where the path breaks (a non-dict, an absent key, a `None`), the lookup gives
   * `default`, provided `default` is not itself a dict the walk could continue into.
   */
  lemma {:induction false} ResolveOffPath(value: Value, keys: seq<string>, default: Value)
    requires Walk(value, keys).None? && !default.Obj?
    ensures Resolve(value, keys, default) == default
    decreases |keys|
  {
    if value.Obj? {
      match Lookup(value.entries, keys[0])
      case None =>
        assert Get(value.entries, keys[0], default) == default;
      case Some(next) =>
        assert Get(value.entries, keys[0], default) == next;
        if next != Null {
          ResolveOffPath(next, keys[1..], default);
        }
    }
  }

  /** With a non-dict default the lookup is the path's value when it exists and `default` otherwise. */
  lemma ResolveIsWalk(value: Value, keys: seq<string>, default: Value)
    requires !default.Obj?
    ensures Resolve(value, keys, default) == if Walk(value, keys).Some? then Walk(value, keys).value else default
  {
    if Walk(value, keys).Some? {
      ResolveFollowsPath(value, keys, default);
    } else {
      ResolveOffPath(value, keys, default);
    }
  }

  /** A dict default is walked into: an absent first key continues the lookup inside `default`. */
  lemma AbsentKeyWalksDefault(entries: Dict, k: string, rest: seq<string>, default: Value)
    requires !HasKey(entries, k) && default != Null
    ensures Resolve(Obj(entries), [k] + rest, default) == Resolve(default, rest, default)
  {
    assert ([k] + rest)[1..] == rest;
  }

  /** After a failed load the config is `{}`, so every key path gives a non-dict default. */
  lemma FailedLoadGivesDefault(reason: string, keys: seq<string>, default: Value)
    requires keys != [] && !default.Obj?
    ensures Resolve(LoadedConfig(LoadFailed(reason)), keys, default) == default
  {
    ResolveOffPath(Obj([]), keys, default);
  }

  /** Two `ConfigLoader()` calls read the file once, unless the first read gave an empty document (`None`). */
  method ConstructTwice(first: LoadResult, second: LoadResult) returns (c: Value)
    ensures first.LoadFailed? ==> c == Obj([])
    ensures first.Parsed? && first.document != Null ==> c == first.document
    ensures first.Parsed? && first.document == Null ==> c == LoadedConfig(second)
  {
    var loader := new ConfigLoader();
    loader.Construct(first);
    loader.Construct(second);
    c := loader.config;
  }
}
