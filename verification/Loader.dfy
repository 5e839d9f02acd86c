/**
 * The symbol table of the loaded library: a catalogue of names bound in two phases, first the
 * main library, then the extension libraries, with a table of the names found missing.
 */
module Loader {
  import opened Bytes
  import opened Text

  datatype Binding = Binding(name: Bytes, since: Bytes, library: Bytes)

  type Catalogue = seq<Binding>

  // What the loaded libraries export; an extension library that could not be opened is absent.
  datatype Exports = Exports(main: set<Bytes>, extensions: map<Bytes, set<Bytes>>)

  const MAIN: Bytes := "main"

  /** The state of the table: the version of each missing name, and the catalogue positions whose function is bound. */
  datatype Table = Table(missing: map<Bytes, Bytes>, bound: set<nat>)

  predicate Agrees(catalogue: Catalogue, t: Table) {
    forall i | 0 <= i < |catalogue| :: catalogue[i].name in t.missing <==> i !in t.bound
  }

  /** Bindings of one name belong to one library. */
  predicate OneLibrary(catalogue: Catalogue) {
    forall i, j | 0 <= i < |catalogue| && 0 <= j < |catalogue| && catalogue[i].name == catalogue[j].name ::
      catalogue[i].library == catalogue[j].library
  }

  /** The loaded libraries have the function of this binding. */
  predicate Available(exports: Exports, b: Binding) {
    if b.library == MAIN then b.name in exports.main
    else b.library in exports.extensions && b.name in exports.extensions[b.library]
  }

  predicate Main(exports: Exports, b: Binding) {
    b.library == MAIN && b.name in exports.main
  }

  /** One binding of the first phase: names of extension libraries count as missing. */
  function BindMain(exports: Exports, b: Binding, i: nat, t: Table): Table {
    if Main(exports, b) then Table(t.missing - {b.name}, t.bound + {i})
    else t.(missing := t.missing[b.name := b.since])
  }

  /** One binding of the second phase: a name of the main library keeps what the table says of it. */
  function BindExtension(exports: Exports, b: Binding, i: nat, t: Table): Table {
    if b.library == MAIN then
      t.(missing := if b.name in t.missing then t.missing[b.name := b.since] else t.missing - {b.name})
    else if Available(exports, b) then Table(t.missing - {b.name}, t.bound + {i})
    else t.(missing := t.missing[b.name := b.since])
  }

  /** The table after the first n bindings of the first phase. */
  function AfterMain(catalogue: Catalogue, exports: Exports, n: nat): Table
    requires n <= |catalogue|
  {
    if n == 0 then Table(map[], {})
    else BindMain(exports, catalogue[n - 1], n - 1, AfterMain(catalogue, exports, n - 1))
  }

  /** The table after the first phase and the first n bindings of the second. */
  function AfterExtensions(catalogue: Catalogue, exports: Exports, n: nat): Table
    requires n <= |catalogue|
  {
    if n == 0 then AfterMain(catalogue, exports, |catalogue|)
    else BindExtension(exports, catalogue[n - 1], n - 1, AfterExtensions(catalogue, exports, n - 1))
  }

  function Loaded(catalogue: Catalogue, exports: Exports): Table {
    AfterExtensions(catalogue, exports, |catalogue|)
  }

  // ----- The loader's object -----

  class NativeAPI {
    var missing: map<Bytes, Bytes>
    var bound: set<nat>

    function State(): Table
      reads this
    {
      Table(missing, bound)
    }

    constructor ()
      ensures State() == Table(map[], {})
    {
      missing, bound := map[], {};
    }

    method BindMainLibrary(catalogue: Catalogue, exports: Exports)
      requires State() == Table(map[], {})
      modifies this
      ensures State() == AfterMain(catalogue, exports, |catalogue|)
    {
      for i := 0 to |catalogue|
        invariant State() == AfterMain(catalogue, exports, i)
      {
        var b := catalogue[i];
        if b.library != MAIN || b.name !in exports.main {
          missing := missing[b.name := b.since];
        } else {
          bound := bound + {i};
          missing := missing - {b.name};
        }
      }
    }

    method BindExtensionLibraries(catalogue: Catalogue, exports: Exports)
      requires State() == AfterMain(catalogue, exports, |catalogue|)
      modifies this
      ensures State() == Loaded(catalogue, exports)
    {
      for i := 0 to |catalogue|
        invariant State() == AfterExtensions(catalogue, exports, i)
      {
        var b := catalogue[i];
        var failed: bool;
        if b.library == MAIN {
          failed := b.name in missing;
        } else if b.library !in exports.extensions || b.name !in exports.extensions[b.library] {
          failed := true;
        } else {
          bound := bound + {i};
          failed := false;
        }
        missing := if failed then missing[b.name := b.since] else missing - {b.name};
      }
    }

    /** The version in which a missing symbol appeared, None for a symbol that may be called. */
    function RequireSymbol(name: Bytes): Option<Bytes>
      reads this
    {
      if name in missing then Some(missing[name]) else None
    }

    predicate HasSymbol(catalogue: Catalogue, name: Bytes)
      reads this
    {
      (exists i | 0 <= i < |catalogue| :: catalogue[i].name == name) && name !in missing
    }
  }

  /**
   * Load a library: its allocator must resolve, it must have virInitialize, and that must succeed
   * before the extension libraries are opened. On success exactly the available functions are bound.
   */
  method LoadNativeAPIFrom(catalogue: Catalogue, exports: Exports, allocator: bool, initialized: bool)
    returns (api: NativeAPI?)
    requires OneLibrary(catalogue)
    ensures api != null ==> fresh(api) && api.State() == Loaded(catalogue, exports)
    ensures api != null ==> forall i | 0 <= i < |catalogue| ::
      && (i in api.bound <==> Available(exports, catalogue[i]))
      && (api.RequireSymbol(catalogue[i].name) == None <==> i in api.bound)
      && (api.HasSymbol(catalogue, catalogue[i].name) <==> i in api.bound)
      && (Last(catalogue, i) && i !in api.bound ==>
            api.RequireSymbol(catalogue[i].name) == Some(catalogue[i].since))
    ensures api != null ==> forall name | (forall i | 0 <= i < |catalogue| :: catalogue[i].name != name) ::
      api.RequireSymbol(name) == None && !api.HasSymbol(catalogue, name)
    ensures (api == null) <==>
      (!allocator || "virInitialize" in AfterMain(catalogue, exports, |catalogue|).missing || !initialized)
    ensures forall i | 0 <= i < |catalogue| && catalogue[i].name == "virInitialize" && catalogue[i].library == MAIN ::
      api == null <==> !allocator || catalogue[i].name !in exports.main || !initialized
  {
    MainMeans(catalogue, exports, |catalogue|);
    if !allocator {
      return null;
    }
    api := new NativeAPI();
    api.BindMainLibrary(catalogue, exports);
    if api.RequireSymbol("virInitialize") != None || !initialized {
      return null;
    }
    api.BindExtensionLibraries(catalogue, exports);
    LoadedMeans(catalogue, exports, |catalogue|);
    BoundMeans(catalogue, exports, |catalogue|);
    MissingSince(catalogue, exports);
  }

  // ----- Versions -----

  /** No later binding has the same name. */
  predicate Last(catalogue: Catalogue, i: nat) {
    i < |catalogue| && forall k | i < k < |catalogue| :: catalogue[k].name != catalogue[i].name
  }

  /** Whatever is exported, a missing symbol has a binding, and the version of its last one. */
  lemma MissingSince(catalogue: Catalogue, exports: Exports)
    ensures var missing := Loaded(catalogue, exports).missing;
      && (forall name :: name in missing ==> exists i :: 0 <= i < |catalogue| && catalogue[i].name == name)
      && (forall i | 0 <= i < |catalogue| && Last(catalogue, i) && catalogue[i].name in missing ::
            missing[catalogue[i].name] == catalogue[i].since)
  {
    hide AfterExtensions;
    forall name | name in Loaded(catalogue, exports).missing
      ensures exists i :: 0 <= i < |catalogue| && catalogue[i].name == name
    {
      MissingIsNamed(catalogue, exports, |catalogue|, name);
    }
    forall i | 0 <= i < |catalogue| && Last(catalogue, i) && catalogue[i].name in Loaded(catalogue, exports).missing
      ensures Loaded(catalogue, exports).missing[catalogue[i].name] == catalogue[i].since
    {
      SinceOfLast(catalogue, exports, i, |catalogue|);
    }
  }

  lemma {:induction false} MissingIsNamed(catalogue: Catalogue, exports: Exports, n: nat, name: Bytes)
    requires n <= |catalogue| && name in AfterExtensions(catalogue, exports, n).missing
    ensures exists i :: 0 <= i < |catalogue| && catalogue[i].name == name
  {
    if n == 0 {
      MissingIsNamedInMain(catalogue, exports, |catalogue|, name);
    } else if catalogue[n - 1].name != name {
      MissingIsNamed(catalogue, exports, n - 1, name);
    }
  }

  lemma {:induction false} MissingIsNamedInMain(catalogue: Catalogue, exports: Exports, n: nat, name: Bytes)
    requires n <= |catalogue| && name in AfterMain(catalogue, exports, n).missing
    ensures exists i :: 0 <= i < |catalogue| && catalogue[i].name == name
  {
    if n == 0 {
    } else if catalogue[n - 1].name != name {
      MissingIsNamedInMain(catalogue, exports, n - 1, name);
    }
  }

  lemma {:induction false} SinceOfLast(catalogue: Catalogue, exports: Exports, i: nat, n: nat)
    requires Last(catalogue, i) && i < n <= |catalogue|
    requires catalogue[i].name in AfterExtensions(catalogue, exports, n).missing
    ensures AfterExtensions(catalogue, exports, n).missing[catalogue[i].name] == catalogue[i].since
  {
    if i == n - 1 {
    } else {
      SinceOfLast(catalogue, exports, i, n - 1);
    }
  }

  // ----- Agreement -----

  lemma {:induction false} MainMeans(catalogue: Catalogue, exports: Exports, n: nat)
    requires OneLibrary(catalogue) && n <= |catalogue|
    ensures var t := AfterMain(catalogue, exports, n);
      && (forall i | 0 <= i < n :: catalogue[i].name in t.missing <==> !Main(exports, catalogue[i]))
      && (forall i :: i in t.bound <==> 0 <= i < n && Main(exports, catalogue[i]))
  {
    if n == 0 {
    } else {
      MainMeans(catalogue, exports, n - 1);
    }
  }

  lemma {:induction false} LoadedMeans(catalogue: Catalogue, exports: Exports, n: nat)
    requires OneLibrary(catalogue) && n <= |catalogue|
    ensures var t := AfterExtensions(catalogue, exports, n);
      && (forall i | 0 <= i < n :: catalogue[i].name in t.missing <==> !Available(exports, catalogue[i]))
      && (forall i | n <= i < |catalogue| && (forall j | 0 <= j < n :: catalogue[j].name != catalogue[i].name) ::
            catalogue[i].name in t.missing <==> !Main(exports, catalogue[i]))
  {
    if n == 0 {
      MainMeans(catalogue, exports, |catalogue|);
    } else {
      LoadedMeans(catalogue, exports, n - 1);
    }
  }

  lemma {:induction false} BoundMeans(catalogue: Catalogue, exports: Exports, n: nat)
    requires OneLibrary(catalogue) && n <= |catalogue|
    ensures forall i :: i in AfterExtensions(catalogue, exports, n).bound <==>
      0 <= i < |catalogue| && (Main(exports, catalogue[i]) || (i < n && Available(exports, catalogue[i])))
  {
    if n == 0 {
      MainMeans(catalogue, exports, |catalogue|);
    } else {
      BoundMeans(catalogue, exports, n - 1);
    }
  }

  /** The second phase changes no name of the main library. */
  lemma MainStatusStays(catalogue: Catalogue, exports: Exports, i: nat)
    requires OneLibrary(catalogue) && i < |catalogue| && catalogue[i].library == MAIN
    ensures catalogue[i].name in Loaded(catalogue, exports).missing
            <==> catalogue[i].name in AfterMain(catalogue, exports, |catalogue|).missing
    ensures i in Loaded(catalogue, exports).bound <==> i in AfterMain(catalogue, exports, |catalogue|).bound
  {
    MainMeans(catalogue, exports, |catalogue|);
    LoadedMeans(catalogue, exports, |catalogue|);
    BoundMeans(catalogue, exports, |catalogue|);
  }

  /**
   * The names found missing are those whose function is unbound, whatever is exported, exactly when no
   * two libraries share a name.
   */
  lemma AgreementExact(catalogue: Catalogue)
    ensures (forall exports :: Agrees(catalogue, Loaded(catalogue, exports))) <==> OneLibrary(catalogue)
  {
    if OneLibrary(catalogue) {
      forall exports ensures Agrees(catalogue, Loaded(catalogue, exports)) {
        LoadedMeans(catalogue, exports, |catalogue|);
        BoundMeans(catalogue, exports, |catalogue|);
      }
    } else {
      var exports := SharedNameDisagrees(catalogue);
    }
  }

  /**
   * When two libraries share a name, exporting it from the library that comes last in the catalogue breaks the
   * agreement.
   */
  lemma SharedNameDisagrees(catalogue: Catalogue) returns (exports: Exports)
    requires !OneLibrary(catalogue)
    ensures !Agrees(catalogue, Loaded(catalogue, exports))
  {
    var i, j :| 0 <= i < |catalogue| && 0 <= j < |catalogue|
                && catalogue[i].name == catalogue[j].name && catalogue[i].library != catalogue[j].library;
    var name := catalogue[i].name;
    var last := LastNamed(catalogue, name, |catalogue|, i);
    var library := catalogue[last].library;
    exports := if library == MAIN then Exports({name}, map[]) else Exports({}, map[library := {name}]);
    var other := if catalogue[i].library != library then i else j;
    OnlyOne(catalogue, exports, name, library, last, other);
  }

  lemma LastNamed(catalogue: Catalogue, name: Bytes, n: nat, i: nat) returns (last: nat)
    requires i < n <= |catalogue| && catalogue[i].name == name
    ensures i <= last < n && catalogue[last].name == name
    ensures forall k | last < k < n :: catalogue[k].name != name
  {
    last := n - 1;
    while catalogue[last].name != name
      invariant i <= last < n && forall k | last < k < n :: catalogue[k].name != name
      decreases last
    {
      last := last - 1;
    }
  }

  /** The function of an unavailable binding is never bound. */
  lemma {:induction false} NeverBound(catalogue: Catalogue, exports: Exports, n: nat, i: nat)
    requires n <= |catalogue| && i < |catalogue| && !Available(exports, catalogue[i])
    ensures i !in AfterMain(catalogue, exports, n).bound && i !in AfterExtensions(catalogue, exports, n).bound
    decreases n
  {
    if n > 0 {
      NeverBound(catalogue, exports, n - 1, i);
    } else {
      MainNeverBinds(catalogue, exports, |catalogue|, i);
    }
  }

  lemma {:induction false} MainNeverBinds(catalogue: Catalogue, exports: Exports, n: nat, i: nat)
    requires n <= |catalogue| && i < |catalogue| && !Main(exports, catalogue[i])
    ensures i !in AfterMain(catalogue, exports, n).bound
  {
    if n == 0 {
    } else {
      MainNeverBinds(catalogue, exports, n - 1, i);
    }
  }

  lemma OnlyOne(catalogue: Catalogue, exports: Exports, name: Bytes, library: Bytes, last: nat, other: nat)
    requires other < last < |catalogue| && catalogue[last] == Binding(name, catalogue[last].since, library)
    requires catalogue[other].name == name && catalogue[other].library != library
    requires forall k | last < k < |catalogue| :: catalogue[k].name != name
    requires exports == if library == MAIN then Exports({name}, map[]) else Exports({}, map[library := {name}])
    ensures !Agrees(catalogue, Loaded(catalogue, exports))
  {
    NeverBound(catalogue, exports, |catalogue|, other);
    if library == MAIN {
      StaysBound(catalogue, exports, last, |catalogue|);
      MissingUntil(catalogue, exports, name, other, last + 1);
      Unmentioned(catalogue, exports, name, last + 1, |catalogue|);
    } else {
      Unmentioned(catalogue, exports, name, last + 1, |catalogue|);
    }
  }

  /** A binding that shares no name with the rest leaves the name's status alone. */
  lemma {:induction false} Unmentioned(catalogue: Catalogue, exports: Exports, name: Bytes, from: nat, n: nat)
    requires from <= n <= |catalogue| && forall k | from <= k < n :: catalogue[k].name != name
    ensures name in AfterExtensions(catalogue, exports, n).missing <==>
      name in AfterExtensions(catalogue, exports, from).missing
  {
    if from == n {
    } else {
      Unmentioned(catalogue, exports, name, from, n - 1);
    }
  }

  /** Once an unavailable extension binding has made a name missing, only an available extension binding clears it. */
  lemma {:induction false} MissingUntil(catalogue: Catalogue, exports: Exports, name: Bytes, other: nat, n: nat)
    requires other < n <= |catalogue| && catalogue[other].name == name && catalogue[other].library != MAIN
    requires exports.extensions == map[]
    ensures name in AfterExtensions(catalogue, exports, n).missing
  {
    if other == n - 1 {
    } else {
      MissingUntil(catalogue, exports, name, other, n - 1);
    }
  }

  lemma {:induction false} StaysBound(catalogue: Catalogue, exports: Exports, i: nat, n: nat)
    requires i < |catalogue| && n <= |catalogue| && Main(exports, catalogue[i])
    ensures i in AfterExtensions(catalogue, exports, n).bound
  {
    if n > 0 {
      StaysBound(catalogue, exports, i, n - 1);
    } else {
      MainStays(catalogue, exports, i, |catalogue|);
    }
  }

  lemma {:induction false} MainStays(catalogue: Catalogue, exports: Exports, i: nat, n: nat)
    requires i < n <= |catalogue| && Main(exports, catalogue[i])
    ensures i in AfterMain(catalogue, exports, n).bound
  {
    if i == n - 1 {
    } else {
      MainStays(catalogue, exports, i, n - 1);
    }
  }
}
