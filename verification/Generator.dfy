/**
 * The code generator's canonical forms: one list of functions with unique names, constants
 * sorted by name, and aliases sorted by value, from which the symbol catalogue is rendered.
 */
module Generator {
  import opened Bytes
  import opened Text
  import opened Sorting
  import opened AbiTypes
  import Loader

  // ----- Names -----

  /** Byte-wise order, as Go compares strings. */
  predicate Before(a: Bytes, b: Bytes) {
    if b == [] then false
    else if a == [] then true
    else if a[0] != b[0] then a[0] < b[0]
    else Before(a[1..], b[1..])
  }

  lemma {:induction false} BeforeIsStrict(a: Bytes)
    ensures !Before(a, a)
  {
    if a == [] {
    } else {
      BeforeIsStrict(a[1..]);
    }
  }

  lemma {:induction false} BeforeIsTransitive(a: Bytes, b: Bytes, c: Bytes)
    requires Before(a, b) && Before(b, c)
    ensures Before(a, c)
  {
    if a == [] || !(a[0] == b[0] == c[0]) {
    } else {
      BeforeIsTransitive(a[1..], b[1..], c[1..]);
    }
  }

  lemma BeforeIsAsymmetric(a: Bytes, b: Bytes)
    requires Before(a, b)
    ensures !Before(b, a)
  {
    if Before(b, a) {
      BeforeIsTransitive(a, b, a);
      BeforeIsStrict(a);
    }
  }

  lemma {:induction false} BeforeIsTotal(a: Bytes, b: Bytes)
    ensures Before(a, b) || a == b || Before(b, a)
  {
    if a == [] || b == [] || a[0] != b[0] {
    } else {
      BeforeIsTotal(a[1..], b[1..]);
      assert a == [a[0]] + a[1..] && b == [b[0]] + b[1..];
    }
  }

  /** Everything about the order of names at once. */
  lemma NamesAreOrdered()
    ensures forall a, b :: Before(a, b) || a == b || Before(b, a)
    ensures forall a, b :: Before(a, b) ==> a != b && !Before(b, a)
    ensures forall a, b, c :: Before(a, b) && Before(b, c) ==> Before(a, c)
  {
    hide Before;
    forall a, b | Before(a, b) ensures a != b && !Before(b, a) {
      BeforeIsAsymmetric(a, b);
    }
    forall a, b, c | Before(a, b) && Before(b, c) ensures Before(a, c) {
      BeforeIsTransitive(a, b, c);
    }
    forall a, b ensures Before(a, b) || a == b || Before(b, a) {
      BeforeIsTotal(a, b);
    }
  }

  lemma NamesWeaklyOrdered(names: seq<Bytes>)
    ensures StrictWeakOrder(names, Before)
  {
    NamesAreOrdered();
    hide Before;
  }

  // ----- The API documents -----

  // A C type as its words.
  type CType = seq<Bytes>

  datatype Function = Function(name: Bytes, since: Bytes, args: seq<CType>, ret: CType)
  datatype Enum = Enum(kind: Bytes, name: Bytes, value: Bytes)
  datatype Source = Source(
    library: Bytes, functions: seq<Function>, callbacks: seq<Bytes>, enums: seq<Enum>, macros: seq<Macro>)
  datatype Labelled = Labelled(name: Bytes, since: Bytes, library: Bytes, args: seq<CType>, ret: CType)
  datatype Document = Document(functions: seq<Labelled>, callbacks: seq<Bytes>, enums: seq<Enum>, macros: seq<Macro>)

  function FunctionNames(fs: seq<Labelled>): seq<Bytes> {
    seq(|fs|, i requires 0 <= i < |fs| => fs[i].name)
  }

  function EnumNames(es: seq<Enum>): seq<Bytes> {
    seq(|es|, i requires 0 <= i < |es| => es[i].name)
  }

  function Label(source: Source): seq<Labelled> {
    seq(|source.functions|, i requires 0 <= i < |source.functions| =>
      var f := source.functions[i]; Labelled(f.name, f.since, source.library, f.args, f.ret))
  }

  /** All documents together, in document order. */
  function Combined(sources: seq<Source>): Document {
    if sources == [] then Document([], [], [], [])
    else
      var rest, last := Combined(sources[..|sources| - 1]), sources[|sources| - 1];
      Document(rest.functions + Label(last), rest.callbacks + last.callbacks,
               rest.enums + last.enums, rest.macros + last.macros)
  }

  /** What makes the documents usable together. */
  predicate Combines(sources: seq<Source>) {
    && (forall i | 0 <= i < |sources| :: sources[i].functions != [])
    && Distinct(FunctionNames(Combined(sources).functions))
    && Distinct(EnumNames(Combined(sources).enums))
  }

  lemma DistinctSnoc(names: seq<Bytes>, name: Bytes)
    ensures Distinct(names + [name]) <==> Distinct(names) && name !in names
  {
    var more := names + [name];
    assert more[|names|] == name;
    assert forall i | 0 <= i < |names| :: more[i] == names[i];
  }

  lemma DistinctPrefix(a: seq<Bytes>, b: seq<Bytes>)
    requires Distinct(a + b)
    ensures Distinct(a)
  {
    assert forall i | 0 <= i < |a| :: (a + b)[i] == a[i];
  }

  /** Enter one document's names into the table of all names before it. */
  method Register(names: seq<Bytes>, library: Bytes, table: map<Bytes, Bytes>, ghost before: seq<Bytes>)
    returns (ok: bool, table': map<Bytes, Bytes>)
    requires Distinct(before) && forall name :: name in table <==> name in before
    ensures ok <==> Distinct(before + names)
    ensures ok ==> forall name :: name in table' <==> name in before + names
  {
    ok, table' := true, table;
    assert before + names[..0] == before;
    for i := 0 to |names|
      invariant ok && Distinct(before + names[..i])
      invariant forall name :: name in table' <==> name in before + names[..i]
    {
      var done := before + names[..i];
      assert before + names[..i + 1] == done + [names[i]];
      DistinctSnoc(done, names[i]);
      if names[i] in table' {
        assert before + names == (done + [names[i]]) + names[i + 1..];
        if Distinct(before + names) {
          DistinctPrefix(done + [names[i]], names[i + 1..]);
        }
        ok := false;
        return;
      }
      table' := table'[names[i] := library];
    }
    assert names[..|names|] == names;
  }

  /** The document of all sources; an empty one or a name that appears twice is an error. */
  method LoadAPIDocuments(sources: seq<Source>) returns (r: Option<Document>)
    ensures r == if Combines(sources) then Some(Combined(sources)) else None
  {
    var functions: map<Bytes, Bytes>, enums: map<Bytes, Bytes> := map[], map[];
    var combined := Document([], [], [], []);
    for n := 0 to |sources|
      invariant combined == Combined(sources[..n]) && Combines(sources[..n])
      invariant forall name :: name in functions <==> name in FunctionNames(combined.functions)
      invariant forall name :: name in enums <==> name in EnumNames(combined.enums)
    {
      var source, before := sources[n], combined;
      CombinedSnoc(sources, n);
      if source.functions == [] {
        return None;
      }
      var names := FunctionNames(Label(source));
      assert FunctionNames(before.functions + Label(source)) == FunctionNames(before.functions) + names;
      var ok;
      ok, functions := Register(names, source.library, functions, FunctionNames(before.functions));
      if !ok {
        return None;
      }
      assert EnumNames(before.enums + source.enums) == EnumNames(before.enums) + EnumNames(source.enums);
      ok, enums := Register(EnumNames(source.enums), source.library, enums, EnumNames(before.enums));
      if !ok {
        return None;
      }
      combined := Document(before.functions + Label(source), before.callbacks + source.callbacks,
                           before.enums + source.enums, before.macros + source.macros);
    }
    assert sources[..|sources|] == sources;
    return Some(combined);
  }

  /** A prefix of the documents that does not combine never will. */
  lemma CombinedSnoc(sources: seq<Source>, n: nat)
    requires n < |sources|
    ensures var before, source := Combined(sources[..n]), sources[n];
      && Combined(sources[..n + 1])
         == Document(before.functions + Label(source), before.callbacks + source.callbacks,
                     before.enums + source.enums, before.macros + source.macros)
      && (Combines(sources) ==> Combines(sources[..n + 1]))
  {
    assert sources[..n + 1][..n] == sources[..n];
    if Combines(sources) {
      CombinesPrefix(sources, n + 1);
    }
  }

  lemma {:induction false} CombinesPrefix(sources: seq<Source>, n: nat)
    requires n <= |sources| && Combines(sources)
    ensures Combines(sources[..n])
    decreases |sources| - n
  {
    if n == |sources| {
      assert sources[..n] == sources;
    } else {
      CombinesPrefix(sources, n + 1);
      var rest, last := Combined(sources[..n]), sources[n];
      assert sources[..n + 1][..n] == sources[..n];
      assert FunctionNames(rest.functions + Label(last)) == FunctionNames(rest.functions) + FunctionNames(Label(last));
      assert EnumNames(rest.enums + last.enums) == EnumNames(rest.enums) + EnumNames(last.enums);
      DistinctPrefix(FunctionNames(rest.functions), FunctionNames(Label(last)));
      DistinctPrefix(EnumNames(rest.enums), EnumNames(last.enums));
    }
  }

  // ----- What the combination holds, told from its sources -----

  /** The function l as a source has it. */
  predicate IsFrom(l: Labelled, source: Source) {
    exists f | f in source.functions :: l == Labelled(f.name, f.since, source.library, f.args, f.ret)
  }

  predicate HasFunction(sources: seq<Source>, l: Labelled) {
    exists i :: 0 <= i < |sources| && IsFrom(l, sources[i])
  }

  predicate HasCallback(sources: seq<Source>, c: Bytes) {
    exists i :: 0 <= i < |sources| && c in sources[i].callbacks
  }

  predicate HasEnum(sources: seq<Source>, e: Enum) {
    exists i :: 0 <= i < |sources| && e in sources[i].enums
  }

  predicate HasMacro(sources: seq<Source>, m: Macro) {
    exists i :: 0 <= i < |sources| && m in sources[i].macros
  }

  /** A function carries its own name, version and types, and the library of the document it stands in. */
  lemma {:induction false} CombinedExact(sources: seq<Source>)
    ensures forall l :: l in Combined(sources).functions <==> HasFunction(sources, l)
    ensures forall c :: c in Combined(sources).callbacks <==> HasCallback(sources, c)
    ensures forall e :: e in Combined(sources).enums <==> HasEnum(sources, e)
    ensures forall m :: m in Combined(sources).macros <==> HasMacro(sources, m)
  {
    if sources == [] {
    } else {
      var front, last := sources[..|sources| - 1], sources[|sources| - 1];
      CombinedExact(front);
      LabelExact(last);
      OneMore(sources);
      hide Label, IsFrom, HasFunction, HasCallback, HasEnum, HasMacro;
    }
  }

  lemma OneMore(sources: seq<Source>)
    requires sources != []
    ensures var front, last := sources[..|sources| - 1], sources[|sources| - 1];
      && (forall l :: HasFunction(sources, l) <==> HasFunction(front, l) || IsFrom(l, last))
      && (forall c :: HasCallback(sources, c) <==> HasCallback(front, c) || c in last.callbacks)
      && (forall e :: HasEnum(sources, e) <==> HasEnum(front, e) || e in last.enums)
      && (forall m :: HasMacro(sources, m) <==> HasMacro(front, m) || m in last.macros)
  {
    hide IsFrom;
    var n := |sources| - 1;
    var front := sources[..n];
    assert forall i | 0 <= i < n :: front[i] == sources[i];
    assert forall i | 0 <= i < |sources| :: i == n || sources[i] == front[i];
  }

  lemma LabelExact(source: Source)
    ensures forall l :: l in Label(source) <==> IsFrom(l, source)
  {
    forall l | IsFrom(l, source) ensures l in Label(source) {
      var f :| f in source.functions && l == Labelled(f.name, f.since, source.library, f.args, f.ret);
      var k :| 0 <= k < |source.functions| && source.functions[k] == f;
      assert Label(source)[k] == l;
    }
  }

  /** No name stands in two places. */
  predicate OnceOnly(lists: seq<seq<Bytes>>) {
    forall i, k, j, l | 0 <= i < |lists| && 0 <= j < |lists| && 0 <= k < |lists[i]| && 0 <= l < |lists[j]|
      && lists[i][k] == lists[j][l] :: i == j && k == l
  }

  function Concat(lists: seq<seq<Bytes>>): seq<Bytes> {
    if lists == [] then [] else Concat(lists[..|lists| - 1]) + lists[|lists| - 1]
  }

  lemma {:induction false} ConcatHas(lists: seq<seq<Bytes>>, name: Bytes)
    ensures name in Concat(lists) <==> exists i, k :: 0 <= i < |lists| && 0 <= k < |lists[i]| && lists[i][k] == name
  {
    if lists == [] {
    } else {
      ConcatHas(lists[..|lists| - 1], name);
    }
  }

  lemma DistinctConcat(a: seq<Bytes>, b: seq<Bytes>)
    ensures Distinct(a + b) <==> Distinct(a) && Distinct(b) && forall x | x in a :: x !in b
  {
    var all := a + b;
    assert forall i | 0 <= i < |a| :: all[i] == a[i];
    assert forall i | 0 <= i < |b| :: all[|a| + i] == b[i];
    if Distinct(all) {
      forall i, j | 0 <= i < |a| && 0 <= j < |b| ensures a[i] != b[j] {
        assert all[i] != all[|a| + j];
      }
    } else if Distinct(a) && Distinct(b) {
      var i, j :| 0 <= i < j < |all| && all[i] == all[j];
      assert i < |a| && j >= |a| && all[j] in b;
    }
  }

  lemma {:induction false} OnceOnlyExact(lists: seq<seq<Bytes>>)
    ensures Distinct(Concat(lists)) <==> OnceOnly(lists)
  {
    if lists == [] {
    } else {
      var front, last := lists[..|lists| - 1], lists[|lists| - 1];
      OnceOnlyExact(front);
      DistinctConcat(Concat(front), last);
      forall name ensures name in Concat(front) <==>
        exists i, k :: 0 <= i < |front| && 0 <= k < |front[i]| && front[i][k] == name
      {
        ConcatHas(front, name);
      }
      OnceOnlySnoc(front, last);
    }
  }

  lemma OnceOnlySnoc(front: seq<seq<Bytes>>, last: seq<Bytes>)
    ensures OnceOnly(front + [last]) <==>
      && OnceOnly(front) && Distinct(last)
      && forall i, k | 0 <= i < |front| && 0 <= k < |front[i]| :: front[i][k] !in last
  {
    var lists := front + [last];
    assert lists[|front|] == last && forall i | 0 <= i < |front| :: lists[i] == front[i];
  }

  function FunctionLists(sources: seq<Source>): seq<seq<Bytes>> {
    seq(|sources|, i requires 0 <= i < |sources| =>
      seq(|sources[i].functions|, k requires 0 <= k < |sources[i].functions| => sources[i].functions[k].name))
  }

  function EnumLists(sources: seq<Source>): seq<seq<Bytes>> {
    seq(|sources|, i requires 0 <= i < |sources| =>
      seq(|sources[i].enums|, k requires 0 <= k < |sources[i].enums| => sources[i].enums[k].name))
  }

  lemma {:induction false} CombinedNames(sources: seq<Source>)
    ensures FunctionNames(Combined(sources).functions) == Concat(FunctionLists(sources))
    ensures EnumNames(Combined(sources).enums) == Concat(EnumLists(sources))
  {
    if sources == [] {
    } else {
      var n := |sources| - 1;
      CombinedNames(sources[..n]);
      var rest, last := Combined(sources[..n]), sources[n];
      assert FunctionNames(rest.functions + Label(last)) == FunctionNames(rest.functions) + FunctionLists(sources)[n];
      assert EnumNames(rest.enums + last.enums) == EnumNames(rest.enums) + EnumLists(sources)[n];
      assert FunctionLists(sources)[..n] == FunctionLists(sources[..n]);
      assert EnumLists(sources)[..n] == EnumLists(sources[..n]);
    }
  }

  /** Documents combine exactly when each has a function, and no function or enum name stands in two places. */
  lemma CombinesExact(sources: seq<Source>)
    ensures Combines(sources) <==>
      && (forall i | 0 <= i < |sources| :: sources[i].functions != [])
      && OnceOnly(FunctionLists(sources)) && OnceOnly(EnumLists(sources))
  {
    CombinedNames(sources);
    OnceOnlyExact(FunctionLists(sources));
    OnceOnlyExact(EnumLists(sources));
  }

  // ----- The catalogue -----

  /** Selection mode "all": every function, in strict name order. */
  method SelectNativeSymbols(functions: seq<Labelled>) returns (r: Option<seq<Bytes>>)
    requires Distinct(FunctionNames(functions))
    ensures r.None? <==> functions == []
    ensures r.Some? ==> StrictlyIncreasing(r.value, Before)
    ensures r.Some? ==> forall name :: name in r.value <==> name in FunctionNames(functions)
  {
    NamesAreOrdered();
    var names := FunctionNames(functions);
    NamesWeaklyOrdered(names);
    var symbols := SortFunc(names, Before);
    if |symbols| == 0 {
      assert |multiset(symbols)| == |multiset(names)|;
      return None;
    }
    DistinctStays(names, symbols);
    SameElements(symbols, names);
    return Some(symbols);
  }

  lemma SameElements<T>(a: seq<T>, b: seq<T>)
    requires multiset(a) == multiset(b)
    ensures forall x :: x in a <==> x in b
  {
    assert forall x :: x in a <==> x in multiset(a);
    assert forall x :: x in b <==> x in multiset(b);
  }

  datatype Signature = Signature(args: seq<GoType>, result: GoType)

  // One function of the generated source.
  datatype Entry = Entry(name: Bytes, since: Bytes, library: Bytes, signature: Signature)

  /** The Go signature of a function, None when one of its C types has no Go type. */
  function SignatureOf(f: Labelled, callbacks: set<Bytes>): Option<Signature> {
    var result := GoABIType(f.ret, true, callbacks);
    if result.Some? && forall i | 0 <= i < |f.args| :: GoABIType(f.args[i], false, callbacks).Some? then
      var args := seq(|f.args|, i requires 0 <= i < |f.args| => GoABIType(f.args[i], false, callbacks).value);
      Some(Signature(args, result.value))
    else None
  }

  method MapSignature(f: Labelled, callbacks: set<Bytes>) returns (r: Option<Signature>)
    ensures r == SignatureOf(f, callbacks)
  {
    hide GoABIType;
    var args: seq<GoType> := [];
    for i := 0 to |f.args|
      invariant |args| == i && forall j | 0 <= j < i :: GoABIType(f.args[j], false, callbacks) == Some(args[j])
    {
      var mapped := GoABIType(f.args[i], false, callbacks);
      if mapped.None? {
        return None;
      }
      args := args + [mapped.value];
    }
    var result := GoABIType(f.ret, true, callbacks);
    if result.None? {
      return None;
    }
    assert args == SignatureOf(f, callbacks).value.args;
    r := Some(Signature(args, result.value));
  }

  /** The entry of a function; no library means the main one. */
  predicate Enters(e: Entry, f: Labelled, callbacks: set<Bytes>) {
    && e.name == f.name && e.since == f.since
    && e.library == (if f.library == "" then Loader.MAIN else f.library)
    && SignatureOf(f, callbacks) == Some(e.signature)
  }

  /** What the loader sees of the entries. */
  function Bindings(entries: seq<Entry>): Loader.Catalogue {
    seq(|entries|, i requires 0 <= i < |entries| =>
      Loader.Binding(entries[i].name, entries[i].since, entries[i].library))
  }

  method RenderCatalogue(functions: seq<Labelled>, callbacks: set<Bytes>, symbols: seq<Bytes>)
    returns (r: Option<seq<Entry>>)
    requires Distinct(FunctionNames(functions))
    ensures r.Some? <==> forall name | name in symbols :: Renderable(functions, callbacks, name)
    ensures r.Some? ==> |r.value| == |symbols|
    ensures r.Some? ==> forall i | 0 <= i < |symbols| ::
      r.value[i].name == symbols[i] && exists f | f in functions :: Enters(r.value[i], f, callbacks)
  {
    hide SignatureOf;
    var table: map<Bytes, Labelled> := map[];
    for i := 0 to |functions|
      invariant forall name :: name in table <==> name in FunctionNames(functions[..i])
      invariant forall name :: name in table ==> table[name] in functions && table[name].name == name
    {
      assert FunctionNames(functions[..i + 1]) == FunctionNames(functions[..i]) + [functions[i].name];
      table := table[functions[i].name := functions[i]];
    }
    assert functions[..|functions|] == functions;
    var entries: seq<Entry> := [];
    for i := 0 to |symbols|
      invariant |entries| == i && forall j | 0 <= j < i :: entries[j].name == symbols[j]
      invariant forall j | 0 <= j < i :: Renderable(functions, callbacks, symbols[j])
      invariant forall j | 0 <= j < i :: exists f | f in functions :: Enters(entries[j], f, callbacks)
    {
      var symbol := symbols[i];
      if symbol !in table {
        assert symbol in symbols;
        NotRenderable(functions, callbacks, symbol);
        return None;
      }
      var f := table[symbol];
      var signature := MapSignature(f, callbacks);
      if signature.None? {
        assert symbol in symbols;
        forall g | g in functions && g.name == symbol ensures g == f {
          SameNameSameFunction(functions, f, g);
        }
        return None;
      }
      var entry := Entry(symbol, f.since, if f.library == "" then Loader.MAIN else f.library, signature.value);
      assert Enters(entry, f, callbacks);
      entries := entries + [entry];
    }
    return Some(entries);
  }

  /** The symbol is a function all whose C types have Go types. */
  predicate Renderable(functions: seq<Labelled>, callbacks: set<Bytes>, symbol: Bytes) {
    exists f | f in functions :: f.name == symbol && SignatureOf(f, callbacks).Some?
  }

  lemma NotRenderable(functions: seq<Labelled>, callbacks: set<Bytes>, symbol: Bytes)
    requires symbol !in FunctionNames(functions)
    ensures !Renderable(functions, callbacks, symbol)
  {
    hide SignatureOf;
    forall f | f in functions ensures f.name != symbol {
      NameIn(functions, f);
    }
  }

  /** Every function has one entry, in strict name order, with its own library and signature. */
  ghost predicate IsCatalogue(functions: seq<Labelled>, callbacks: set<Bytes>, entries: seq<Entry>) {
    && (forall i, j | 0 <= i < j < |entries| :: Before(entries[i].name, entries[j].name))
    && (forall e :: e in entries <==> exists f | f in functions :: Enters(e, f, callbacks))
  }

  lemma CatalogueIsWhole(functions: seq<Labelled>, callbacks: set<Bytes>, symbols: seq<Bytes>, entries: seq<Entry>)
    requires Distinct(FunctionNames(functions)) && StrictlyIncreasing(symbols, Before)
    requires forall name :: name in symbols <==> name in FunctionNames(functions)
    requires |entries| == |symbols|
    requires forall i | 0 <= i < |symbols| ::
      entries[i].name == symbols[i] && exists f | f in functions :: Enters(entries[i], f, callbacks)
    ensures IsCatalogue(functions, callbacks, entries)
  {
    hide Before, SignatureOf;
    forall i, j | 0 <= i < j < |entries| ensures Before(entries[i].name, entries[j].name) {
      assert Before(symbols[i], symbols[j]);
    }
    forall e, f | f in functions && Enters(e, f, callbacks) ensures e in entries {
      NameIn(functions, f);
      EntryIsThere(functions, callbacks, symbols, entries, e, f);
    }
  }

  lemma EntryIsThere(functions: seq<Labelled>, callbacks: set<Bytes>, symbols: seq<Bytes>, entries: seq<Entry>,
                     e: Entry, f: Labelled)
    requires Distinct(FunctionNames(functions)) && f in functions && f.name in symbols && |entries| == |symbols|
    requires Enters(e, f, callbacks)
    requires forall i | 0 <= i < |symbols| ::
      entries[i].name == symbols[i] && exists g | g in functions :: Enters(entries[i], g, callbacks)
    ensures e in entries
  {
    hide SignatureOf;
    var i :| 0 <= i < |symbols| && symbols[i] == f.name;
    var g :| g in functions && Enters(entries[i], g, callbacks);
    SameNameSameFunction(functions, f, g);
    assert entries[i] == e;
  }

  lemma CatalogueHasOneLibrary(functions: seq<Labelled>, callbacks: set<Bytes>, entries: seq<Entry>)
    requires IsCatalogue(functions, callbacks, entries)
    ensures Loader.OneLibrary(Bindings(entries))
  {
    NamesAreOrdered();
    hide Before, SignatureOf;
    var catalogue := Bindings(entries);
    forall i, j | 0 <= i < |catalogue| && 0 <= j < |catalogue| && catalogue[i].name == catalogue[j].name
      ensures i == j
    {
      assert catalogue[i].name == entries[i].name && catalogue[j].name == entries[j].name;
    }
  }

  lemma NameIn(functions: seq<Labelled>, f: Labelled)
    requires f in functions
    ensures f.name in FunctionNames(functions)
  {
    var k :| 0 <= k < |functions| && functions[k] == f;
    assert FunctionNames(functions)[k] == f.name;
  }

  lemma SameNameSameFunction(functions: seq<Labelled>, f: Labelled, g: Labelled)
    requires Distinct(FunctionNames(functions)) && f in functions && g in functions && f.name == g.name
    ensures f == g
  {
    var k :| 0 <= k < |functions| && functions[k] == f;
    var l :| 0 <= l < |functions| && functions[l] == g;
    assert FunctionNames(functions)[k] == FunctionNames(functions)[l];
  }

  // ----- Constant macros -----

  // value is the constant a macro stands for, None when its text is not one; a function macro
  // has params.
  datatype Macro = Macro(name: Bytes, params: bool, value: Option<Bytes>)
  datatype Constant = Constant(name: Bytes, value: Bytes)

  predicate Kept(m: Macro) {
    !m.params && (m.name == [] || m.name[0] != '_')
  }

  predicate ByName(a: Constant, b: Constant) {
    Before(a.name, b.name)
  }

  /** Every kept macro is a constant, and same-named ones agree. */
  predicate Consistent(macros: seq<Macro>) {
    && (forall m | m in macros && Kept(m) :: m.value.Some?)
    && (forall m, k | m in macros && k in macros && Kept(m) && Kept(k) && m.name == k.name :: m.value == k.value)
  }

  predicate IsConstant(macros: seq<Macro>, c: Constant) {
    exists m | m in macros :: Kept(m) && m.name == c.name && m.value == Some(c.value)
  }

  /** The one list that stands for these macros. */
  ghost predicate Lists(macros: seq<Macro>, r: seq<Constant>) {
    && StrictlyIncreasing(r, ByName)
    && (forall c :: c in r <==> IsConstant(macros, c))
  }

  lemma ByNameIsOrder(constants: seq<Constant>)
    ensures StrictWeakOrder(constants, ByName)
    ensures forall x, y | x in constants && y in constants :: !(ByName(x, y) && ByName(y, x))
  {
    NamesAreOrdered();
    hide Before;
  }

  lemma ListsUnique(macros: seq<Macro>, a: seq<Constant>, b: seq<Constant>)
    requires Lists(macros, a) && Lists(macros, b)
    ensures a == b
  {
    ByNameIsOrder(a);
    hide ByName, IsConstant;
    IncreasingUnique(a, b, ByName);
  }

  /** The order and the repetition of macros do not matter. */
  lemma OrderDoesNotMatter(macros: seq<Macro>, others: seq<Macro>, a: seq<Constant>, b: seq<Constant>)
    requires forall m :: m in macros <==> m in others
    requires Lists(macros, a) && Lists(others, b)
    ensures Consistent(macros) <==> Consistent(others)
    ensures a == b
  {
    assert forall c :: IsConstant(macros, c) <==> IsConstant(others, c);
    ListsUnique(macros, a, b);
  }

  method ConstantMacros(macros: seq<Macro>) returns (r: Option<seq<Constant>>)
    ensures r.Some? <==> Consistent(macros)
    ensures r.Some? ==> Lists(macros, r.value)
  {
    var seen: map<Bytes, Bytes> := map[];
    var result: seq<Constant> := [];
    for i := 0 to |macros|
      invariant Consistent(macros[..i])
      invariant forall c :: c in result <==> IsConstant(macros[..i], c)
      invariant forall c :: c in result <==> c.name in seen && seen[c.name] == c.value
      invariant forall j, k | 0 <= j < k < |result| :: result[j].name != result[k].name
    {
      var m := macros[i];
      assert macros[..i + 1] == macros[..i] + [m];
      ConsistentSnoc(macros[..i], m);
      if Consistent(macros) {
        ConsistentPrefix(macros, i + 1);
      }
      if m.params || (m.name != [] && m.name[0] == '_') {
        continue;
      }
      if m.value == None {
        return None;
      }
      var value := m.value.value;
      if m.name in seen {
        assert IsConstant(macros[..i], Constant(m.name, seen[m.name]));
        if seen[m.name] != value {
          return None;
        }
        continue;
      }
      seen := seen[m.name := value];
      result := result + [Constant(m.name, value)];
    }
    assert macros[..|macros|] == macros;
    ByNameIsOrder(result);
    var sorted := SortFunc(result, ByName);
    SameElements(sorted, result);
    SortedByName(result, sorted);
    return Some(sorted);
  }

  /** One more macro of the loop. */
  lemma ConsistentSnoc(macros: seq<Macro>, m: Macro)
    ensures Consistent(macros + [m]) <==>
      && Consistent(macros)
      && (Kept(m) ==> m.value.Some? && forall c | IsConstant(macros, c) && c.name == m.name :: m.value == Some(c.value))
  {
    var more := macros + [m];
    assert forall k :: k in more <==> k in macros || k == m;
    if Consistent(more) && Kept(m) {
      forall c | IsConstant(macros, c) && c.name == m.name ensures m.value == Some(c.value) {
        var k :| k in macros && Kept(k) && k.name == c.name && k.value == Some(c.value);
        assert k in more && m in more;
      }
    }
    if Consistent(macros) && Kept(m) && m.value.Some?
       && forall c | IsConstant(macros, c) && c.name == m.name :: m.value == Some(c.value) {
      forall k | k in macros && Kept(k) && k.name == m.name ensures k.value == m.value {
        assert IsConstant(macros, Constant(k.name, k.value.value));
      }
    }
  }

  lemma {:induction false} ConsistentPrefix(macros: seq<Macro>, n: nat)
    requires n <= |macros| && Consistent(macros)
    ensures Consistent(macros[..n])
  {
    assert forall m | m in macros[..n] :: m in macros;
  }

  lemma SortedByName(result: seq<Constant>, sorted: seq<Constant>)
    requires multiset(sorted) == multiset(result) && InOrder(sorted, ByName)
    requires forall j, k | 0 <= j < k < |result| :: result[j].name != result[k].name
    ensures StrictlyIncreasing(sorted, ByName)
  {
    DistinctStays(result, sorted);
    NamesAreOrdered();
    forall i, j | 0 <= i < j < |sorted| ensures ByName(sorted[i], sorted[j]) {
      assert sorted[i] in multiset(result) && sorted[j] in multiset(result);
      var k :| 0 <= k < |result| && result[k] == sorted[i];
      var l :| 0 <= l < |result| && result[l] == sorted[j];
      assert result[k].name != result[l].name;
      assert !ByName(sorted[j], sorted[i]);
    }
  }

  // ----- Alias groups -----

  /** The comparison of an alias group: by value where both are numbers and differ, else by name. */
  predicate AliasLess(a: Enum, b: Enum) {
    var left, right := Atoi(a.value), Atoi(b.value);
    if left.Some? && right.Some? && left.value != right.value then left.value < right.value
    else Before(a.name, b.name)
  }

  /** A strict total order on the enums of this list. */
  ghost predicate OrdersAll(es: seq<Enum>) {
    && (forall a | a in es :: !AliasLess(a, a))
    && (forall a, b | a in es && b in es && a != b :: AliasLess(a, b) || AliasLess(b, a))
    && (forall a, b, c | a in es && b in es && c in es && AliasLess(a, b) && AliasLess(b, c) :: AliasLess(a, c))
  }

  /** A value that is no number whose name lies between those of two numbers in the wrong order. */
  predicate Straddles(a: Enum, b: Enum, c: Enum) {
    && Atoi(a.value).Some? && Atoi(b.value).Some? && Atoi(c.value).None?
    && Atoi(a.value).value < Atoi(b.value).value
    && Before(b.name, c.name) && Before(c.name, a.name)
  }

  predicate Straddled(es: seq<Enum>) {
    exists a, b, c | a in es && b in es && c in es :: Straddles(a, b, c)
  }

  /**
   * On enums with distinct names the comparison is a strict total order exactly when no value straddles two
   * numbers.
   */
  lemma AliasOrderExact(es: seq<Enum>)
    requires Distinct(EnumNames(es))
    ensures OrdersAll(es) <==> !Straddled(es)
  {
    NamesAreOrdered();
    SameNameSameEnum(es);
    if !Straddled(es) {
      forall a, b, c | a in es && b in es && c in es && AliasLess(a, b) && AliasLess(b, c) ensures AliasLess(a, c) {
        NoCycle(es, a, b, c);
      }
    } else {
      var a, b, c :| a in es && b in es && c in es && Straddles(a, b, c);
      assert AliasLess(a, b) && AliasLess(b, c) && AliasLess(c, a);
    }
  }

  lemma SameNameSameEnum(es: seq<Enum>)
    requires Distinct(EnumNames(es))
    ensures forall a, b | a in es && b in es && a.name == b.name :: a == b
  {
    forall a, b | a in es && b in es && a.name == b.name ensures a == b {
      var i :| 0 <= i < |es| && es[i] == a;
      var j :| 0 <= j < |es| && es[j] == b;
      assert EnumNames(es)[i] == EnumNames(es)[j];
    }
  }

  lemma StraddleIn(es: seq<Enum>, a: Enum, b: Enum, c: Enum)
    requires !Straddled(es) && a in es && b in es && c in es
    ensures !Straddles(a, b, c)
  {
  }

  lemma NoCycle(es: seq<Enum>, a: Enum, b: Enum, c: Enum)
    requires !Straddled(es) && a in es && b in es && c in es && AliasLess(a, b) && AliasLess(b, c)
    requires forall x, y | x in es && y in es && x.name == y.name :: x == y
    ensures AliasLess(a, c)
  {
    NamesAreOrdered();
    hide Before, Atoi, Straddled;
    StraddleIn(es, a, b, c);
    StraddleIn(es, b, c, a);
    StraddleIn(es, c, a, b);
  }

  /** Then the unstable sort has one possible result. */
  lemma AliasSortUnique(es: seq<Enum>, s: seq<Enum>, t: seq<Enum>)
    requires Distinct(EnumNames(es)) && !Straddled(es)
    requires multiset(s) == multiset(es) && multiset(t) == multiset(es)
    requires InOrder(s, AliasLess) && InOrder(t, AliasLess)
    ensures s == t
  {
    AliasOrderExact(es);
    SameElements(s, es);
    SameElements(t, es);
    SortedStrictly(es, s);
    SortedStrictly(es, t);
    IncreasingUnique(s, t, AliasLess);
  }

  lemma SortedStrictly(es: seq<Enum>, s: seq<Enum>)
    requires Distinct(EnumNames(es)) && OrdersAll(es) && multiset(s) == multiset(es) && InOrder(s, AliasLess)
    ensures StrictlyIncreasing(s, AliasLess)
  {
    SameElements(s, es);
    forall i, j | 0 <= i < j < |es| ensures es[i] != es[j] {
      assert EnumNames(es)[i] != EnumNames(es)[j];
    }
    DistinctStays(es, s);
    assert forall i | 0 <= i < |s| :: s[i] in es;
  }

  /** Otherwise no arrangement is in order. */
  lemma StraddledHasNoOrder(es: seq<Enum>, s: seq<Enum>)
    requires Straddled(es) && multiset(s) == multiset(es)
    ensures !InOrder(s, AliasLess)
  {
    NamesAreOrdered();
    SameElements(s, es);
    var a, b, c :| a in es && b in es && c in es && Straddles(a, b, c);
    CycleHasNoOrder(s, AliasLess, a, b, c);
  }

  // ----- The alias groups of the generated source -----

  datatype AliasSpec = AliasSpec(kind: Bytes, prefix: Bytes)

  function AliasSpecs(): seq<AliasSpec> {
    [AliasSpec("virConnectListAllDomainsFlags", "VIR_CONNECT_LIST_DOMAINS_"),
     AliasSpec("virDomainState", "VIR_DOMAIN_"),
     AliasSpec("virDomainXMLFlags", "VIR_DOMAIN_XML_")]
  }

  predicate InGroup(e: Enum, spec: AliasSpec) {
    e.kind == spec.kind && spec.prefix <= e.name
  }

  function Selected(es: seq<Enum>, spec: AliasSpec): (r: seq<Enum>)
    ensures forall e :: e in r <==> e in es && InGroup(e, spec)
  {
    if es == [] then []
    else
      var front, last := es[..|es| - 1], es[|es| - 1];
      assert es == front + [last];
      Selected(front, spec) + if InGroup(last, spec) then [last] else []
  }

  lemma {:induction false} SelectedDistinct(es: seq<Enum>, spec: AliasSpec)
    requires Distinct(EnumNames(es))
    ensures Distinct(EnumNames(Selected(es, spec)))
  {
    if es == [] {
    } else {
      var front, last := es[..|es| - 1], es[|es| - 1];
      assert EnumNames(es) == EnumNames(front) + [last.name];
      DistinctSnoc(EnumNames(front), last.name);
      SelectedDistinct(front, spec);
      var r := Selected(front, spec);
      assert EnumNames(r + [last]) == EnumNames(r) + [last.name];
      forall i | 0 <= i < |r| ensures r[i].name != last.name {
        assert r[i] in r;
        EnumNameIn(front, r[i]);
      }
      DistinctSnoc(EnumNames(r), last.name);
      assert r + [] == r;
    }
  }

  lemma EnumNameIn(es: seq<Enum>, e: Enum)
    requires e in es
    ensures e.name in EnumNames(es)
  {
    var k :| 0 <= k < |es| && es[k] == e;
    assert EnumNames(es)[k] == e.name;
  }

  /** The comparison orders an alias group exactly when no value of the group straddles two numbers of it. */
  lemma GroupOrderExact(es: seq<Enum>, spec: AliasSpec)
    requires Distinct(EnumNames(es))
    ensures OrdersAll(Selected(es, spec)) <==> !Straddled(Selected(es, spec))
    ensures !Straddled(Selected(es, spec)) ==> StrictWeakOrder(Selected(es, spec), AliasLess)
  {
    SelectedDistinct(es, spec);
    AliasOrderExact(Selected(es, spec));
    hide AliasLess, Straddled;
  }

  predicate HasGroup(es: seq<Enum>, spec: AliasSpec) {
    exists e | e in es :: InGroup(e, spec)
  }

  /** A permutation of the group's enums, and the one in order when there is an order. */
  ghost predicate IsGroup(group: seq<Enum>, es: seq<Enum>, spec: AliasSpec) {
    && multiset(group) == multiset(Selected(es, spec))
    && (!Straddled(Selected(es, spec)) ==> StrictlyIncreasing(group, AliasLess))
  }

  /** Numbers stand in the order of their values, and whatever does not differ as a number in the order of names. */
  ghost predicate ByValueThenName(group: seq<Enum>) {
    forall i, j | 0 <= i < j < |group| ::
      var a, b := Atoi(group[i].value), Atoi(group[j].value);
      if a.Some? && b.Some? then a.value < b.value || (a.value == b.value && Before(group[i].name, group[j].name))
      else Before(group[i].name, group[j].name)
  }

  lemma GroupIsByValue(group: seq<Enum>)
    requires StrictlyIncreasing(group, AliasLess)
    ensures ByValueThenName(group)
  {
    hide Atoi, Before;
  }

  /** One alias group: the enums of its type and prefix, sorted; an empty group is an error. */
  method SelectGroup(es: seq<Enum>, spec: AliasSpec) returns (r: Option<seq<Enum>>)
    requires Distinct(EnumNames(es))
    ensures r.None? <==> !HasGroup(es, spec)
    ensures r.Some? ==> IsGroup(r.value, es, spec)
    ensures r.Some? && !Straddled(Selected(es, spec)) ==> ByValueThenName(r.value)
  {
    hide AliasLess, Straddled;
    var selected: seq<Enum> := [];
    for i := 0 to |es|
      invariant selected == Selected(es[..i], spec)
    {
      assert es[..i + 1][..i] == es[..i];
      if es[i].kind == spec.kind && spec.prefix <= es[i].name {
        selected := selected + [es[i]];
      }
    }
    assert es[..|es|] == es;
    GroupOrderExact(es, spec);
    SelectedDistinct(es, spec);
    var sorted := SortFunc(selected, AliasLess);
    if !Straddled(selected) {
      SortedStrictly(selected, sorted);
      GroupIsByValue(sorted);
    }
    if |selected| == 0 {
      return None;
    }
    assert selected[0] in selected;
    r := Some(sorted);
  }

  predicate ValidEnumValue(value: Bytes) {
    var digits := if value != [] && value[0] == '-' then value[1..] else value;
    && digits != []
    && if IsDigit(digits[0]) then AllDigits(digits)
       else "VIR_" <= digits && forall c | c in digits :: c == '_' || 'A' <= c <= 'Z' || IsDigit(c)
  }

  lemma NotUpper(digits: Bytes, i: nat)
    requires i < |digits| && !(digits[i] == '_' || 'A' <= digits[i] <= 'Z' || IsDigit(digits[i]))
    ensures !forall c | c in digits :: c == '_' || 'A' <= c <= 'Z' || IsDigit(c)
  {
    assert digits[i] in digits;
  }

  method CheckEnumValue(value: Bytes) returns (valid: bool)
    ensures valid <==> ValidEnumValue(value)
  {
    if value == [] {
      return false;
    }
    var rest := value;
    if rest[0] == '-' {
      rest := rest[1..];
      if rest == [] {
        return false;
      }
    }
    if '0' <= rest[0] <= '9' {
      for i := 0 to |rest|
        invariant AllDigits(rest[..i])
      {
        if rest[i] < '0' || rest[i] > '9' {
          return false;
        }
        assert rest[..i + 1] == rest[..i] + [rest[i]];
      }
      assert rest[..|rest|] == rest;
      return true;
    }
    if !("VIR_" <= rest) {
      return false;
    }
    for i := 0 to |rest|
      invariant forall c | c in rest[..i] :: c == '_' || 'A' <= c <= 'Z' || '0' <= c <= '9'
    {
      if rest[i] != '_' && (rest[i] < 'A' || rest[i] > 'Z') && (rest[i] < '0' || rest[i] > '9') {
        NotUpper(rest, i);
        return false;
      }
      assert rest[..i + 1] == rest[..i] + [rest[i]];
    }
    assert rest[..|rest|] == rest;
    return true;
  }

  lemma {:induction false} BeforeBehind(prefix: Bytes, x: Bytes, y: Bytes)
    ensures Before(prefix + x, prefix + y) <==> Before(x, y)
  {
    if prefix == [] {
      assert prefix + x == x && prefix + y == y;
    } else {
      assert (prefix + x)[1..] == prefix[1..] + x && (prefix + y)[1..] == prefix[1..] + y;
      BeforeBehind(prefix[1..], x, y);
    }
  }

  lemma DigitParses(value: Bytes, n: nat)
    requires n < 10 && value == ['0' + n as char]
    ensures Atoi(value) == Some(n) && ValidEnumValue(value)
  {
    assert value == Itoa(n);
    AtoiOfItoa(n);
  }

  /** The value of another enum is no number, and valid. */
  lemma AliasValue(value: Bytes)
    requires "VIR_" <= value && forall c | c in value :: c == '_' || 'A' <= c <= 'Z'
    ensures Atoi(value) == None && ValidEnumValue(value)
  {
    assert value[0] == 'V';
  }

  /**
   * A group of domain states without an order: a number 1 named C, a number 2 named A, and B, which is another
   * name for A.
   */
  lemma ThreeCycle(a: Enum, b: Enum, c: Enum, spec: AliasSpec)
    requires spec == AliasSpec("virDomainState", "VIR_DOMAIN_")
    requires a == Enum(spec.kind, spec.prefix + "C", "1") && b == Enum(spec.kind, spec.prefix + "A", "2")
    requires c == Enum(spec.kind, spec.prefix + "B", "VIR_DOMAIN_A")
    ensures spec in AliasSpecs() && Distinct(EnumNames([a, b, c]))
    ensures ValidEnumValue(a.value) && ValidEnumValue(b.value) && ValidEnumValue(c.value)
    ensures Straddled(Selected([a, b, c], spec))
  {
    hide *;
    StateSpec(spec);
    DigitParses(a.value, 1);
    DigitParses(b.value, 2);
    AliasValue(c.value);
    Letters(spec.prefix);
    LaterInGroup(a, spec, "C");
    LaterInGroup(b, spec, "A");
    LaterInGroup(c, spec, "B");
    Cycles(a, b, c, spec);
  }

  lemma Cycles(a: Enum, b: Enum, c: Enum, spec: AliasSpec)
    requires InGroup(a, spec) && InGroup(b, spec) && InGroup(c, spec)
    requires Atoi(a.value) == Some(1) && Atoi(b.value) == Some(2) && Atoi(c.value) == None
    requires Before(b.name, c.name) && Before(c.name, a.name) && a.name != b.name && b.name != c.name
      && a.name != c.name
    ensures Distinct(EnumNames([a, b, c])) && Straddled(Selected([a, b, c], spec))
  {
    hide Before, Atoi;
    var group := Selected([a, b, c], spec);
    assert Straddles(a, b, c);
    assert a in [a, b, c] && b in [a, b, c] && c in [a, b, c];
    assert a in group && b in group && c in group;
  }

  lemma StateSpec(spec: AliasSpec)
    requires spec == AliasSpec("virDomainState", "VIR_DOMAIN_")
    ensures spec in AliasSpecs()
  {
    assert AliasSpecs()[1] == spec;
  }

  lemma LaterInGroup(e: Enum, spec: AliasSpec, rest: Bytes)
    requires e.kind == spec.kind && e.name == spec.prefix + rest
    ensures InGroup(e, spec)
  {
  }

  lemma Letters(prefix: Bytes)
    ensures Before(prefix + "A", prefix + "B") && Before(prefix + "B", prefix + "C")
    ensures prefix + "A" != prefix + "B" && prefix + "B" != prefix + "C" && prefix + "A" != prefix + "C"
  {
    BeforeBehind(prefix, "A", "B");
    BeforeBehind(prefix, "B", "C");
    assert (prefix + "A")[|prefix|] == 'A' && (prefix + "B")[|prefix|] == 'B' && (prefix + "C")[|prefix|] == 'C';
  }

  // ----- The generated source -----

  datatype Generated = Generated(
    entries: seq<Entry>, constants: seq<Constant>, enums: seq<Enum>, groups: seq<seq<Enum>>)

  predicate EnumBefore(a: Enum, b: Enum) {
    Before(a.name, b.name)
  }

  function CallbacksOf(d: Document): set<Bytes> {
    set c | c in d.callbacks
  }

  /** What rendering asks of a document; layouts and text say whether its structs and the template can be rendered. */
  predicate Renders(d: Document, layouts: bool, text: bool) {
    && (forall f | f in d.functions :: SignatureOf(f, CallbacksOf(d)).Some?)
    && Consistent(d.macros)
    && layouts
    && (forall e | e in d.enums :: ValidEnumValue(e.value))
    && (forall spec | spec in AliasSpecs() :: HasGroup(d.enums, spec))
    && text
  }

  /** The enums in strict name order. */
  method SortEnums(es: seq<Enum>) returns (r: seq<Enum>)
    requires Distinct(EnumNames(es))
    ensures multiset(r) == multiset(es) && StrictlyIncreasing(r, EnumBefore) && Distinct(EnumNames(r))
  {
    NamesAreOrdered();
    hide Before;
    r := SortFunc(es, EnumBefore);
    SameElements(r, es);
    SameNameSameEnum(es);
    forall i, j | 0 <= i < j < |es| ensures es[i] != es[j] {
      assert EnumNames(es)[i] != EnumNames(es)[j];
    }
    DistinctStays(es, r);
    forall i, j | 0 <= i < j < |r| ensures EnumBefore(r[i], r[j]) {
      assert r[i] in es && r[j] in es && !EnumBefore(r[j], r[i]);
    }
  }

  method AliasGroups(es: seq<Enum>, specs: seq<AliasSpec>) returns (r: Option<seq<seq<Enum>>>)
    requires Distinct(EnumNames(es))
    ensures r.Some? <==> forall spec | spec in specs :: HasGroup(es, spec)
    ensures r.Some? ==> |r.value| == |specs| && forall k | 0 <= k < |specs| :: IsGroup(r.value[k], es, specs[k])
  {
    hide IsGroup, HasGroup, Distinct, Straddled, Selected, ByValueThenName;
    var groups: seq<seq<Enum>> := [];
    for k := 0 to |specs|
      invariant |groups| == k && forall j | 0 <= j < k :: IsGroup(groups[j], es, specs[j])
      invariant forall j | 0 <= j < k :: HasGroup(es, specs[j])
    {
      var group := SelectGroup(es, specs[k]);
      if group.None? {
        return None;
      }
      groups := groups + [group.value];
    }
    r := Some(groups);
  }

  method RenderGenerated(d: Document, symbols: seq<Bytes>, layouts: bool, text: bool) returns (r: Option<Generated>)
    requires Distinct(FunctionNames(d.functions)) && Distinct(EnumNames(d.enums))
    requires StrictlyIncreasing(symbols, Before)
    requires forall name :: name in symbols <==> name in FunctionNames(d.functions)
    ensures r.Some? <==> Renders(d, layouts, text)
    ensures r.Some? ==> IsCatalogue(d.functions, CallbacksOf(d), r.value.entries)
    ensures r.Some? ==> Lists(d.macros, r.value.constants)
    ensures r.Some? ==> multiset(r.value.enums) == multiset(d.enums) && StrictlyIncreasing(r.value.enums, EnumBefore)
    ensures r.Some? ==> |r.value.groups| == |AliasSpecs()|
    ensures r.Some? ==> forall k | 0 <= k < |AliasSpecs()| :: IsGroup(r.value.groups[k], r.value.enums, AliasSpecs()[k])
  {
    hide Before, ValidEnumValue, HasGroup, AliasSpecs, IsGroup, Consistent, Lists, EnumBefore;
    var callbacks := set c | c in d.callbacks;
    var entries := RenderCatalogue(d.functions, callbacks, symbols);
    AllRenderable(d.functions, callbacks, symbols);
    if entries.None? {
      return None;
    }
    CatalogueIsWhole(d.functions, callbacks, symbols, entries.value);
    var macros := ConstantMacros(d.macros);
    if macros.None? || !layouts {
      return None;
    }
    var enums := SortEnums(d.enums);
    SameElements(enums, d.enums);
    for i := 0 to |enums|
      invariant forall j | 0 <= j < i :: ValidEnumValue(enums[j].value)
    {
      var valid := CheckEnumValue(enums[i].value);
      if !valid {
        assert enums[i] in d.enums;
        return None;
      }
    }
    SameGroups(enums, d.enums);
    var groups := AliasGroups(enums, AliasSpecs());
    if groups.None? || !text {
      return None;
    }
    r := Some(Generated(entries.value, macros.value, enums, groups.value));
  }

  lemma SameGroups(es: seq<Enum>, fs: seq<Enum>)
    requires forall e :: e in es <==> e in fs
    ensures forall spec :: HasGroup(es, spec) <==> HasGroup(fs, spec)
  {
    hide InGroup;
  }

  lemma AllRenderable(functions: seq<Labelled>, callbacks: set<Bytes>, symbols: seq<Bytes>)
    requires Distinct(FunctionNames(functions)) && forall name :: name in symbols <==> name in FunctionNames(functions)
    ensures (forall name | name in symbols :: Renderable(functions, callbacks, name))
            <==> (forall f | f in functions :: SignatureOf(f, callbacks).Some?)
  {
    hide SignatureOf;
    if forall name | name in symbols :: Renderable(functions, callbacks, name) {
      forall f | f in functions ensures SignatureOf(f, callbacks).Some? {
        NameIn(functions, f);
        assert Renderable(functions, callbacks, f.name);
        var g :| g in functions && g.name == f.name && SignatureOf(g, callbacks).Some?;
        SameNameSameFunction(functions, f, g);
      }
    } else {
      var name :| name in symbols && !Renderable(functions, callbacks, name);
      var k :| 0 <= k < |functions| && FunctionNames(functions)[k] == name;
      assert functions[k] in functions;
    }
  }

  /**
   * From the documents to the generated source: it fails exactly when there are none, they do not
   * combine, or their combination does not render; otherwise every function has one entry, the
   * constants, enums and alias groups are in their canonical order, and the loader's table
   * of missing names agrees with what it binds.
   */
  method Generate(sources: seq<Source>, layouts: bool, text: bool) returns (r: Option<Generated>)
    ensures r.Some? <==> sources != [] && Combines(sources) && Renders(Combined(sources), layouts, text)
    ensures r.Some? ==> IsCatalogue(Combined(sources).functions, CallbacksOf(Combined(sources)), r.value.entries)
    ensures r.Some? ==> Tells(r.value, sources)
    ensures r.Some? ==> Lists(Combined(sources).macros, r.value.constants)
    ensures r.Some? ==> multiset(r.value.enums) == multiset(Combined(sources).enums)
    ensures r.Some? ==> StrictlyIncreasing(r.value.enums, EnumBefore)
    ensures r.Some? ==> |r.value.groups| == |AliasSpecs()|
    ensures r.Some? ==> forall k | 0 <= k < |AliasSpecs()| :: IsGroup(r.value.groups[k], r.value.enums, AliasSpecs()[k])
    ensures r.Some? ==> Loader.OneLibrary(Bindings(r.value.entries))
    ensures r.Some? ==> forall exports ::
      Loader.Agrees(Bindings(r.value.entries), Loader.Loaded(Bindings(r.value.entries), exports))
  {
    hide Before, Renders, AliasSpecs, IsGroup, Lists, EnumBefore, Tells;
    var document := LoadAPIDocuments(sources);
    if document.None? {
      return None;
    }
    var symbols := SelectNativeSymbols(document.value.functions);
    if symbols.None? {
      return None;
    }
    r := RenderGenerated(document.value, symbols.value, layouts, text);
    if r.Some? {
      CatalogueHasOneLibrary(document.value.functions, CallbacksOf(document.value), r.value.entries);
      Loader.AgreementExact(Bindings(r.value.entries));
      CombinedExact(sources);
      SameElements(r.value.enums, document.value.enums);
      RendersMaps(document.value, layouts, text);
      TellsAll(r.value, sources);
    }
  }

  /** An entry and the function of a source that it stands for. */
  predicate EntryOf(e: Entry, f: Function, library: Bytes) {
    e.name == f.name && e.since == f.since && e.library == if library == "" then "main" else library
  }

  /** Every function of every source has an entry, every entry is one of them, and the enums are the sources' enums. */
  ghost predicate Tells(r: Generated, sources: seq<Source>) {
    && (forall i, f | 0 <= i < |sources| && f in sources[i].functions ::
          exists e :: e in r.entries && EntryOf(e, f, sources[i].library))
    && (forall e | e in r.entries ::
          exists i, f :: 0 <= i < |sources| && f in sources[i].functions && EntryOf(e, f, sources[i].library))
    && (forall e :: e in r.enums <==> exists i :: 0 <= i < |sources| && e in sources[i].enums)
  }

  lemma RendersMaps(d: Document, layouts: bool, text: bool)
    requires Renders(d, layouts, text)
    ensures forall f | f in d.functions :: SignatureOf(f, CallbacksOf(d)).Some?
  {
  }

  lemma TellsAll(r: Generated, sources: seq<Source>)
    requires var d := Combined(sources);
      && IsCatalogue(d.functions, CallbacksOf(d), r.entries)
      && (forall f | f in d.functions :: SignatureOf(f, CallbacksOf(d)).Some?)
      && (forall e :: e in r.enums <==> e in d.enums)
    ensures Tells(r, sources)
  {
    hide IsCatalogue, SignatureOf, Combined, CallbacksOf, EntryOf;
    CombinedExact(sources);
    forall i, f | 0 <= i < |sources| && f in sources[i].functions
      ensures exists e :: e in r.entries && EntryOf(e, f, sources[i].library)
    {
      var e := HasItsEntry(r.entries, sources, i, f);
    }
    forall e | e in r.entries
      ensures exists i, f :: 0 <= i < |sources| && f in sources[i].functions && EntryOf(e, f, sources[i].library)
    {
      var i, f := HasItsFunction(r.entries, sources, e);
    }
  }

  lemma HasItsEntry(entries: seq<Entry>, sources: seq<Source>, i: nat, f: Function) returns (e: Entry)
    requires i < |sources| && f in sources[i].functions
    requires var d := Combined(sources);
      && IsCatalogue(d.functions, CallbacksOf(d), entries)
      && (forall f | f in d.functions :: SignatureOf(f, CallbacksOf(d)).Some?)
    ensures e in entries && EntryOf(e, f, sources[i].library)
  {
    hide SignatureOf, Before, Combined, CallbacksOf;
    CombinedExact(sources);
    var d := Combined(sources);
    var l := Labelled(f.name, f.since, sources[i].library, f.args, f.ret);
    assert IsFrom(l, sources[i]) && HasFunction(sources, l) && l in d.functions;
    var library := if l.library == "" then Loader.MAIN else l.library;
    e := Entry(l.name, l.since, library, SignatureOf(l, CallbacksOf(d)).value);
    assert Enters(e, l, CallbacksOf(d));
  }

  lemma HasItsFunction(entries: seq<Entry>, sources: seq<Source>, e: Entry) returns (i: nat, f: Function)
    requires e in entries
    requires var d := Combined(sources); IsCatalogue(d.functions, CallbacksOf(d), entries)
    ensures i < |sources| && f in sources[i].functions && EntryOf(e, f, sources[i].library)
  {
    hide SignatureOf, Before, Combined, CallbacksOf;
    CombinedExact(sources);
    var d := Combined(sources);
    var l :| l in d.functions && Enters(e, l, CallbacksOf(d));
    assert HasFunction(sources, l);
    i :| 0 <= i < |sources| && IsFrom(l, sources[i]);
    f :| f in sources[i].functions && l == Labelled(f.name, f.since, sources[i].library, f.args, f.ret);
  }
}
