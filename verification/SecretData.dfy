/**
 The data of a Kubernetes secret and the modifications Epinio's updaters apply to a loaded copy of it
 (internal/application/configurations.go, env.go, services.go, scale.go, internal/configurations/configurations.go).
 */
module SecretData {
  import opened Wrappers

  /** A secret's `Data` field: absent, or a map from keys to bytes.  A nil byte slice is the empty string. */
  datatype Data = Nil | Entries(entries: map<string, string>)

  const INSTANCE_KEY := "desired"

  /** What one updater call wants changed.  Bind and Unbind serve bound configurations and bound services. */
  datatype Modifier =
    | Bind(names: seq<string>, replace: bool)
    | Unbind(names: seq<string>)
    | SetEnv(assignments: map<string, string>, replace: bool)
    | UnsetEnv(name: string)
    | Scale(instances: string)
    | Edit(remove: seq<string>, set_: map<string, string>)

  /** The map the modifier starts from, once the updater has replaced absent data. */
  function Loaded(mod: Modifier, d: Data): map<string, string> {
    match d
    case Entries(m) => m
    case Nil => if mod.Scale? then map[INSTANCE_KEY := "1"] else map[]
  }

  function NameSet(names: seq<string>): set<string> {
    set n | n in names
  }

  /** The names as keys without value, which is how a binding secret records them. */
  function Marked(names: seq<string>): map<string, string> {
    map n | n in names :: ""
  }

  lemma NamesSnoc(names: seq<string>, i: nat)
    requires i < |names|
    ensures NameSet(names[..i + 1]) == NameSet(names[..i]) + {names[i]}
    ensures Marked(names[..i + 1]) == Marked(names[..i])[names[i] := ""]
  {
    assert names[..i + 1] == names[..i] + [names[i]];
  }

  /** The data an updater sends back after loading `d`. */
  function Modified(mod: Modifier, d: Data): Data {
    var m := Loaded(mod, d);
    Entries(
      match mod
      case Bind(names, replace) => (if replace then map[] else m) + Marked(names)
      case Unbind(names) => m - NameSet(names)
      case SetEnv(assignments, replace) => (if replace then map[] else m) + assignments
      case UnsetEnv(name) => m - {name}
      case Scale(instances) => m[INSTANCE_KEY := instances]
      case Edit(remove, set_) => (m - NameSet(remove)) + set_)
  }

  // ---- One key at a time

  /** What a modifier does to one key, whatever the data. */
  datatype Effect = Keep | Put(value: string) | Drop

  function At(d: Data, key: string): Option<string> {
    if d.Entries? && key in d.entries then Some(d.entries[key]) else None
  }

  function EffectOn(mod: Modifier, key: string): Effect {
    match mod
    case Bind(names, replace) => if key in names then Put("") else if replace then Drop else Keep
    case Unbind(names) => if key in names then Drop else Keep
    case SetEnv(assignments, replace) =>
      if key in assignments then Put(assignments[key]) else if replace then Drop else Keep
    case UnsetEnv(name) => if key == name then Drop else Keep
    case Scale(instances) => if key == INSTANCE_KEY then Put(instances) else Keep
    case Edit(remove, set_) => if key in set_ then Put(set_[key]) else if key in remove then Drop else Keep
  }

  function ApplyEffect(e: Effect, old_: Option<string>): Option<string> {
    match e
    case Keep => old_
    case Put(v) => Some(v)
    case Drop => None
  }

  /** A modifier acts on every key by itself: the default an updater puts in for absent data is never seen. */
  lemma ModifiedAt(mod: Modifier, d: Data, key: string)
    ensures At(Modified(mod, d), key) == ApplyEffect(EffectOn(mod, key), At(d, key))
  {
    match mod
    case Bind(names, replace) => assert key in Marked(names) <==> key in names;
    case _ =>
  }

  /** Bound names become keys without value, beside what was there or in its place. */
  lemma BindMeans(names: seq<string>, replace: bool, m: map<string, string>, key: string)
    ensures var d := Modified(Bind(names, replace), Entries(m)).entries;
      && (key in d <==> key in names || (!replace && key in m))
      && (key in d ==> d[key] == if key in names then "" else m[key])
  {
    assert key in Marked(names) <==> key in names;
  }

  /** Unbound names go, and nothing else. */
  lemma UnbindMeans(names: seq<string>, m: map<string, string>, key: string)
    ensures var d := Modified(Unbind(names), Entries(m)).entries;
      (key in d <==> key in m && key !in names) && (key in d ==> d[key] == m[key])
  {
  }

  /** Assignments override what was there, or replace it. */
  lemma SetEnvMeans(assignments: map<string, string>, replace: bool, m: map<string, string>, key: string)
    ensures var d := Modified(SetEnv(assignments, replace), Entries(m)).entries;
      && (key in d <==> key in assignments || (!replace && key in m))
      && (key in d ==> d[key] == if key in assignments then assignments[key] else m[key])
  {
  }

  /** Removals come first, so that an assignment to a removed key stays. */
  lemma EditMeans(remove: seq<string>, set_: map<string, string>, m: map<string, string>, key: string)
    ensures var d := Modified(Edit(remove, set_), Entries(m)).entries;
      && (key in d <==> key in set_ || (key in m && key !in remove))
      && (key in d ==> d[key] == if key in set_ then set_[key] else m[key])
  {
  }

  /** Applying the same modification twice is applying it once. */
  lemma ModifiedIdempotent(mod: Modifier, d: Data)
    ensures Modified(mod, Modified(mod, d)) == Modified(mod, d)
  {
    var once, twice := Modified(mod, d), Modified(mod, Modified(mod, d));
    forall key ensures At(once, key) == At(twice, key) {
      ModifiedAt(mod, d, key);
      ModifiedAt(mod, once, key);
    }
    forall key ensures key in once.entries <==> key in twice.entries {
      assert At(once, key) == At(twice, key);
    }
    forall key | key in once.entries ensures once.entries[key] == twice.entries[key] {
      assert At(once, key) == At(twice, key);
    }
  }

  // ---- The modifications as the source performs them, on the loaded object

  /** The loaded secret, whose data the updaters' closures change in place. */
  class Secret {
    var data: Data

    constructor (loaded: Data)
      ensures data == loaded
    {
      data := loaded;
    }

    /** The updater's guard against absent data. */
    method DefaultData(mod: Modifier)
      modifies this
      ensures data == Entries(Loaded(mod, old(data)))
      ensures old(data).Entries? ==> data == old(data)
      ensures old(data).Nil? ==> data == Entries(if mod.Scale? then map["desired" := "1"] else map[])
    {
      if data.Nil? {
        data := Entries(if mod.Scale? then map[INSTANCE_KEY := "1"] else map[]);
      }
    }

    method BoundNamesSet(names: seq<string>, replace: bool)
      requires data.Entries?
      modifies this
      ensures data == Modified(Bind(names, replace), old(data))
    {
      if replace {
        data := Entries(map[]);
      }
      ghost var base := data.entries;
      for i := 0 to |names|
        invariant data == Entries(base + Marked(names[..i]))
      {
        data := Entries(data.entries[names[i] := ""]);
        NamesSnoc(names, i);
      }
      assert names[..|names|] == names;
    }

    method BoundNamesUnset(names: seq<string>)
      requires data.Entries?
      modifies this
      ensures data == Modified(Unbind(names), old(data))
    {
      RemoveKeys(names);
    }

    method RemoveKeys(names: seq<string>)
      requires data.Entries?
      modifies this
      ensures data == Entries(old(data).entries - NameSet(names))
    {
      ghost var base := data.entries;
      for i := 0 to |names|
        invariant data == Entries(base - NameSet(names[..i]))
      {
        data := Entries(data.entries - {names[i]});
        NamesSnoc(names, i);
      }
      assert names[..|names|] == names;
    }

    method PutAll(assignments: map<string, string>)
      requires data.Entries?
      modifies this
      ensures data == Entries(old(data).entries + assignments)
    {
      ghost var base := data.entries;
      var rest := assignments.Keys;
      while rest != {}
        invariant rest <= assignments.Keys
        invariant data == Entries(base + (assignments - rest))
      {
        var name :| name in rest;
        data := Entries(data.entries[name := assignments[name]]);
        rest := rest - {name};
      }
      assert assignments - {} == assignments;
    }

    method EnvironmentSet(assignments: map<string, string>, replace: bool)
      requires data.Entries?
      modifies this
      ensures data == Modified(SetEnv(assignments, replace), old(data))
    {
      if replace {
        data := Entries(map[]);
      }
      PutAll(assignments);
    }

    method EnvironmentUnset(name: string)
      requires data.Entries?
      modifies this
      ensures data == Modified(UnsetEnv(name), old(data))
      ensures data.Entries? && data.entries == old(data).entries - {name}
    {
      data := Entries(data.entries - {name});
    }

    method ScalingSet(instances: string)
      requires data.Entries?
      modifies this
      ensures data == Modified(Scale(instances), old(data))
      ensures data.Entries? && data.entries == old(data).entries["desired" := instances]
    {
      data := Entries(data.entries[INSTANCE_KEY := instances]);
    }

    method UpdateEntries(remove: seq<string>, set_: map<string, string>)
      requires data.Entries?
      modifies this
      ensures data == Modified(Edit(remove, set_), old(data))
    {
      RemoveKeys(remove);
      PutAll(set_);
    }

    /** One pass of an updater over a loaded secret: the guard, then the closure. */
    method Modify(mod: Modifier)
      modifies this
      ensures data == Modified(mod, old(data))
    {
      DefaultData(mod);
      match mod
      case Bind(names, replace) => BoundNamesSet(names, replace);
      case Unbind(names) => BoundNamesUnset(names);
      case SetEnv(assignments, replace) => EnvironmentSet(assignments, replace);
      case UnsetEnv(name) => EnvironmentUnset(name);
      case Scale(instances) => ScalingSet(instances);
      case Edit(remove, set_) => UpdateEntries(remove, set_);
    }
  }
}
