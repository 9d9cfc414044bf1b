/**
 * The alias registry of alias/alias.go: canonical alias records keyed by
 * their lower-cased name, and a per-engine index from normalised alternate
 * names to canonical names.
 *
 * `resources.NormalizeString` is not visible here; the registry carries it
 * as the function-valued constant `normalize`, about which nothing is
 * assumed (in particular not that it is idempotent).
 */
module Alias {
  import opened Wrappers
  import opened Maps
  import opened Common

  // ---------------------------------------------------------------------
  // Lower-casing (strings.ToLower, restricted to ASCII letters)
  // ---------------------------------------------------------------------

  function LowerChar(c: char): char
  {
    if 'A' <= c <= 'Z' then (c as int + 32) as char else c
  }

  /** Lower-cases every ASCII letter and keeps every other character. */
  function ToLower(s: string): (r: string)
    ensures |r| == |s|
    ensures forall i :: 0 <= i < |s| ==> r[i] == LowerChar(s[i])
    ensures forall i :: 0 <= i < |r| ==> !('A' <= r[i] <= 'Z')
  {
    if s == [] then [] else [LowerChar(s[0])] + ToLower(s[1..])
  }

  /** Lower-casing a lower-cased name changes nothing. */
  lemma {:induction false} ToLowerIdempotent(s: string)
    ensures ToLower(ToLower(s)) == ToLower(s)
  {
    if s != [] {
      ToLowerIdempotent(s[1..]);
      assert ToLower(s)[1..] == ToLower(s[1..]);
    }
  }

  // ---------------------------------------------------------------------
  // Alias records
  // ---------------------------------------------------------------------

  /**
   * One alias record. `Compile` rewrites `name`, `normalizedName` and
   * `blocked` in place; the declared attributes, the per-engine alternate
   * names (`AliasMap`) and the `Block` list are never written by the operations modelled here.
   */
  class Alias {
    var name: string
    var normalizedName: string
    const vendor: string
    const product: string
    const version: string
    const update: string
    const edition: string
    const aliasMap: map<string, seq<string>>
    const block: seq<string>
    var blocked: set<string>

    /** A record as a caller or the decoder builds it: not yet compiled. */
    constructor (name: string, vendor: string, product: string, version: string,
                 update: string, edition: string,
                 aliasMap: map<string, seq<string>>, block: seq<string>)
      ensures this.name == name && normalizedName == "" && blocked == {}
      ensures this.vendor == vendor && this.product == product && this.version == version
      ensures this.update == update && this.edition == edition
      ensures this.aliasMap == aliasMap && this.block == block
    {
      this.name := name;
      this.normalizedName := "";
      this.vendor := vendor;
      this.product := product;
      this.version := version;
      this.update := update;
      this.edition := edition;
      this.aliasMap := aliasMap;
      this.block := block;
      this.blocked := {};
    }

    /** The blocked set is exactly the elements of the `Block` list. */
    ghost predicate BlockedFromList()
      reads this
    {
      blocked == set b | b in block
    }

    /** The normalised search key is the normalisation of the name. */
    ghost predicate NormalizedFrom(normalize: string -> string)
      reads this
    {
      normalizedName == normalize(name)
    }

    /** A compiled record blocks exactly the engines its `Block` list names. */
    function IsBlocked(key: string): (r: bool)
      reads this
      ensures BlockedFromList() ==> (r <==> key in block)
    {
      key in blocked
    }

    /** A compiled record fuzzily matches `s` iff both normalise alike. */
    function FuzzyMatch(normalize: string -> string, s: string): (r: bool)
      reads this
      ensures NormalizedFrom(normalize) ==> (r <==> normalize(name) == normalize(s))
    {
      normalizedName == normalize(s)
    }

    /** The attribute tuple of an application ("a") with the record's attributes. */
    function ToWFN(): (r: Attributes)
      ensures r.part == "a"
      ensures r.vendor == vendor && r.product == product && r.version == version
      ensures r.update == update && r.edition == edition
    {
      Attributes("a", vendor, product, version, update, edition)
    }
  }

  // ---------------------------------------------------------------------
  // The specification of a compile batch, on values
  // ---------------------------------------------------------------------

  /**
   * The registrations a batch performs, in batch order: each record under
   * its lower-cased name, read in the state before the batch.
   */
  ghost function Registrations(batch: seq<Alias>): (r: seq<(string, Alias)>)
    reads batch
    ensures |r| == |batch|
    ensures forall i :: 0 <= i < |batch| ==> r[i] == (ToLower(batch[i].name), batch[i])
  {
    if batch == [] then []
    else Registrations(batch[..|batch| - 1]) + [(ToLower(batch[|batch| - 1].name), batch[|batch| - 1])]
  }

  lemma RegistrationsConcat(a: seq<Alias>, b: seq<Alias>)
    ensures Registrations(a + b) == Registrations(a) + Registrations(b)
  {
  }

  /** The inner table of engine `ns`; an absent engine reads as empty, as in Go. */
  function Inner(idx: map<string, map<string, string>>, ns: string): map<string, string>
  {
    if ns in idx then idx[ns] else map[]
  }

  /** The table an engine's alternate names contribute: each normalised name to `canonical`. */
  function Targets(normalize: string -> string, names: seq<string>, canonical: string): map<string, string>
    decreases |names|
  {
    if names == [] then map[]
    else Targets(normalize, names[..|names| - 1], canonical)[normalize(names[|names| - 1]) := canonical]
  }

  /** The keys of `Targets` are the normalised names, and each maps to `canonical`. */
  lemma {:induction false} TargetsFacts(normalize: string -> string, names: seq<string>, canonical: string, k: string)
    ensures k in Targets(normalize, names, canonical) <==> exists n :: n in names && normalize(n) == k
    ensures k in Targets(normalize, names, canonical) ==> Targets(normalize, names, canonical)[k] == canonical
    decreases |names|
  {
    if names != [] {
      var p := names[..|names| - 1];
      TargetsFacts(normalize, p, canonical, k);
      assert names == p + [names[|names| - 1]];
      assert forall n :: n in names <==> n in p || n == names[|names| - 1];
    }
  }

  /** Writes each alternate name of `names`, normalised, into `table` with value `canonical`. */
  method WriteTargets(normalize: string -> string, table: map<string, string>, names: seq<string>,
                      canonical: string) returns (r: map<string, string>)
    ensures r == table + Targets(normalize, names, canonical)
  {
    r := table;
    var j := 0;
    assert names[..0] == [];
    assert r == table + Targets(normalize, names[..0], canonical) by {
      assert Targets(normalize, [], canonical) == map[];
      assert table + map[] == table;
    }
    while j < |names|
      invariant 0 <= j <= |names|
      invariant r == table + Targets(normalize, names[..j], canonical)
    {
      ghost var done := Targets(normalize, names[..j], canonical);
      var key := normalize(names[j]);
      TargetsSnoc(normalize, names, j, canonical);
      MergeUpdate(table, done, key, canonical);
      r := r[key := canonical];
      assert r == table + done[key := canonical];
      j := j + 1;
    }
    assert names[..j] == names;
  }

  /** The index after one record with canonical name `canonical` has been added. */
  function AddEntry(normalize: string -> string, idx: map<string, map<string, string>>,
                    canonical: string, aliasMap: map<string, seq<string>>): map<string, map<string, string>>
  {
    map ns | ns in idx.Keys + aliasMap.Keys ::
      if ns in aliasMap then Inner(idx, ns) + Targets(normalize, aliasMap[ns], canonical) else idx[ns]
  }

  /** The index after the alternate names of the engines in `done` have been added. */
  function AddEngines(normalize: string -> string, idx: map<string, map<string, string>>,
                      canonical: string, aliasMap: map<string, seq<string>>, done: set<string>): map<string, map<string, string>>
    requires done <= aliasMap.Keys
  {
    map ns | ns in idx.Keys + done ::
      if ns in done then Inner(idx, ns) + Targets(normalize, aliasMap[ns], canonical) else idx[ns]
  }

  lemma AddEnginesStep(normalize: string -> string, idx: map<string, map<string, string>>,
                       canonical: string, aliasMap: map<string, seq<string>>, done: set<string>, e: string)
    requires done <= aliasMap.Keys && e in aliasMap && e !in done
    ensures AddEngines(normalize, idx, canonical, aliasMap, done + {e})
         == AddEngines(normalize, idx, canonical, aliasMap, done)[e := Inner(idx, e) + Targets(normalize, aliasMap[e], canonical)]
    ensures e in AddEngines(normalize, idx, canonical, aliasMap, done) ==>
      AddEngines(normalize, idx, canonical, aliasMap, done)[e] == Inner(idx, e)
    ensures e !in AddEngines(normalize, idx, canonical, aliasMap, done) ==> Inner(idx, e) == map[]
  {
  }

  lemma AddEnginesAll(normalize: string -> string, idx: map<string, map<string, string>>,
                      canonical: string, aliasMap: map<string, seq<string>>)
    ensures AddEngines(normalize, idx, canonical, aliasMap, aliasMap.Keys) == AddEntry(normalize, idx, canonical, aliasMap)
  {
  }

  lemma MergeUpdate<K, V>(a: map<K, V>, b: map<K, V>, k: K, v: V)
    ensures (a + b)[k := v] == a + b[k := v]
  {
  }

  lemma TargetsSnoc(normalize: string -> string, names: seq<string>, j: nat, canonical: string)
    requires j < |names|
    ensures Targets(normalize, names[..j + 1], canonical)
         == Targets(normalize, names[..j], canonical)[normalize(names[j]) := canonical]
  {
    assert names[..j + 1][..j] == names[..j];
  }

  /** The index after the registrations `regs` have been added in order. */
  function IndexFold(normalize: string -> string, idx: map<string, map<string, string>>,
                     regs: seq<(string, Alias)>): map<string, map<string, string>>
    decreases |regs|
  {
    if regs == [] then idx
    else
      var last := regs[|regs| - 1];
      AddEntry(normalize, IndexFold(normalize, idx, regs[..|regs| - 1]), last.0, last.1.aliasMap)
  }

  lemma IndexFoldSnoc(normalize: string -> string, idx: map<string, map<string, string>>,
                      regs: seq<(string, Alias)>, i: nat)
    requires i < |regs|
    ensures IndexFold(normalize, idx, regs[..i + 1])
         == AddEntry(normalize, IndexFold(normalize, idx, regs[..i]), regs[i].0, regs[i].1.aliasMap)
  {
    assert regs[..i + 1][..i] == regs[..i];
  }

  /** Registration `reg` writes the index key `k` of engine `ns`. */
  ghost predicate Declares(normalize: string -> string, reg: (string, Alias), ns: string, k: string)
  {
    ns in reg.1.aliasMap && exists n :: n in reg.1.aliasMap[ns] && normalize(n) == k
  }

  lemma AddEntryAt(normalize: string -> string, idx: map<string, map<string, string>>,
                   reg: (string, Alias), ns: string, k: string)
    ensures Declares(normalize, reg, ns, k) ==>
      ns in AddEntry(normalize, idx, reg.0, reg.1.aliasMap) &&
      k in AddEntry(normalize, idx, reg.0, reg.1.aliasMap)[ns] &&
      AddEntry(normalize, idx, reg.0, reg.1.aliasMap)[ns][k] == reg.0
    ensures !Declares(normalize, reg, ns, k) ==>
      (k in Inner(AddEntry(normalize, idx, reg.0, reg.1.aliasMap), ns) <==> k in Inner(idx, ns)) &&
      (k in Inner(idx, ns) ==> Inner(AddEntry(normalize, idx, reg.0, reg.1.aliasMap), ns)[k] == Inner(idx, ns)[k])
  {
    if ns in reg.1.aliasMap {
      TargetsFacts(normalize, reg.1.aliasMap[ns], reg.0, k);
    }
  }

  /** Every canonical name in the index after adding a record was there before or is the record's. */
  lemma AddEntryValues(normalize: string -> string, idx: map<string, map<string, string>>,
                       canonical: string, aliasMap: map<string, seq<string>>, ns: string, k: string)
    requires ns in AddEntry(normalize, idx, canonical, aliasMap)
    requires k in AddEntry(normalize, idx, canonical, aliasMap)[ns]
    ensures AddEntry(normalize, idx, canonical, aliasMap)[ns][k] == canonical
         || (ns in idx && k in idx[ns] && AddEntry(normalize, idx, canonical, aliasMap)[ns][k] == idx[ns][k])
  {
    if ns in aliasMap {
      TargetsFacts(normalize, aliasMap[ns], canonical, k);
    }
  }

  /**
   * After the batch, the index maps key `k` of engine `ns` to the canonical
   * name of the last registration that declares it.
   */
  lemma {:induction false} IndexLastWriter(normalize: string -> string, idx: map<string, map<string, string>>,
                                           regs: seq<(string, Alias)>, i: nat, ns: string, k: string)
    requires i < |regs| && Declares(normalize, regs[i], ns, k)
    requires forall j :: i < j < |regs| ==> !Declares(normalize, regs[j], ns, k)
    ensures ns in IndexFold(normalize, idx, regs) && k in IndexFold(normalize, idx, regs)[ns]
    ensures IndexFold(normalize, idx, regs)[ns][k] == regs[i].0
    decreases |regs|
  {
    var p := regs[..|regs| - 1];
    AddEntryAt(normalize, IndexFold(normalize, idx, p), regs[|regs| - 1], ns, k);
    if i < |regs| - 1 {
      assert forall j :: i < j < |p| ==> p[j] == regs[j];
      IndexLastWriter(normalize, idx, p, i, ns, k);
    }
  }

  /** A key that no registration of the batch declares keeps its presence and value. */
  lemma {:induction false} IndexUntouched(normalize: string -> string, idx: map<string, map<string, string>>,
                                          regs: seq<(string, Alias)>, ns: string, k: string)
    requires forall j :: 0 <= j < |regs| ==> !Declares(normalize, regs[j], ns, k)
    ensures k in Inner(IndexFold(normalize, idx, regs), ns) <==> k in Inner(idx, ns)
    ensures k in Inner(idx, ns) ==> Inner(IndexFold(normalize, idx, regs), ns)[k] == Inner(idx, ns)[k]
    decreases |regs|
  {
    if regs != [] {
      var p := regs[..|regs| - 1];
      assert forall j :: 0 <= j < |p| ==> p[j] == regs[j];
      AddEntryAt(normalize, IndexFold(normalize, idx, p), regs[|regs| - 1], ns, k);
      IndexUntouched(normalize, idx, p, ns, k);
    }
  }

  /** The engines of the index: the old ones and every engine a registration declares. */
  lemma {:induction false} IndexEngines(normalize: string -> string, idx: map<string, map<string, string>>,
                                        regs: seq<(string, Alias)>, ns: string)
    ensures ns in IndexFold(normalize, idx, regs) <==>
      ns in idx || exists j :: 0 <= j < |regs| && ns in regs[j].1.aliasMap
    decreases |regs|
  {
    if regs != [] {
      var p := regs[..|regs| - 1];
      assert forall j :: 0 <= j < |p| ==> p[j] == regs[j];
      IndexEngines(normalize, idx, p, ns);
    }
  }

  /**
   * Every canonical name the batch leaves in the index was either there
   * before or is the canonical name of one of the batch's registrations.
   */
  lemma {:induction false} IndexValues(normalize: string -> string, idx: map<string, map<string, string>>,
                                       regs: seq<(string, Alias)>, ns: string, k: string)
    requires ns in IndexFold(normalize, idx, regs) && k in IndexFold(normalize, idx, regs)[ns]
    ensures (ns in idx && k in idx[ns] && IndexFold(normalize, idx, regs)[ns][k] == idx[ns][k])
         || exists j :: 0 <= j < |regs| && IndexFold(normalize, idx, regs)[ns][k] == regs[j].0
    decreases |regs|
  {
    if regs != [] {
      var p := regs[..|regs| - 1];
      var last := regs[|regs| - 1];
      AddEntryAt(normalize, IndexFold(normalize, idx, p), last, ns, k);
      if !Declares(normalize, last, ns, k) {
        IndexValues(normalize, idx, p, ns, k);
        if exists j :: 0 <= j < |p| && IndexFold(normalize, idx, p)[ns][k] == p[j].0 {
          var j :| 0 <= j < |p| && IndexFold(normalize, idx, p)[ns][k] == p[j].0;
          assert regs[j] == p[j];
        }
      }
    }
  }

  // ---------------------------------------------------------------------
  // The registry
  // ---------------------------------------------------------------------

  /** The set of engines a `Block` list names, entered one by one. */
  method BlockedSet(block: seq<string>) returns (blocked: set<string>)
    ensures blocked == set b | b in block
  {
    blocked := {};
    var j := 0;
    while j < |block|
      invariant 0 <= j <= |block|
      invariant blocked == set b | b in block[..j]
    {
      assert block[..j + 1] == block[..j] + [block[j]];
      blocked := blocked + {block[j]};
      j := j + 1;
    }
    assert block[..j] == block;
  }

  /**
   * The registry (`Aliases`): `aliases` is the Go field `Aliases` and
   * `index` the Go field `Map`.
   */
  class Aliases {
    var aliases: map<string, Alias>
    var index: map<string, map<string, string>>
    const normalize: string -> string

    /** An empty registry, as `NewAliases` allocates it before compiling. */
    constructor (normalize: string -> string)
      ensures aliases == map[] && index == map[] && this.normalize == normalize
      ensures Valid()
    {
      aliases := map[];
      index := map[];
      this.normalize := normalize;
    }

    /**
     * The registry invariant: every canonical name in the index names a
     * record, and every record is stored under its own lower-cased name and
     * is compiled (normalised key and blocked set up to date).
     */
    ghost predicate Valid()
      reads this, aliases.Values
    {
      && (forall ns, k :: ns in index && k in index[ns] ==> index[ns][k] in aliases)
      && (forall c :: c in aliases ==>
            && ToLower(c) == c
            && aliases[c].name == c
            && aliases[c].NormalizedFrom(normalize)
            && aliases[c].BlockedFromList())
    }

    /** Engine `engine` indexes the (already normalised) key `name`. */
    ghost predicate Indexed(engine: string, name: string)
      reads this
    {
      engine in index && name in index[engine]
    }

    /**
     * Looks up a normalised alternate name of an engine. The result is
     * (record, true) when the engine is not blocked for the record,
     * (record, false) when it is, and (null, false) when nothing is indexed.
     */
    function Find(engine: string, name: string): (r: (Alias?, bool))
      reads this, aliases.Values
      ensures r.1 ==> r.0 != null
      ensures r.0 != null ==>
        Indexed(engine, name) && index[engine][name] in aliases && r.0 == aliases[index[engine][name]]
      ensures r.0 != null ==> (r.1 <==> !r.0.IsBlocked(engine))
      ensures Valid() ==> (r.0 != null <==> Indexed(engine, name))
      ensures Valid() && r.0 != null ==>
        r.0.name == index[engine][name] && (r.1 <==> engine !in r.0.block)
    {
      if engine in index && name in index[engine] && index[engine][name] in aliases then
        var alias := aliases[index[engine][name]];
        (alias, !alias.IsBlocked(engine))
      else
        (null, false)
    }

    /**
     * Normalises `name` once and probes the engines of the index in an
     * arbitrary order (Go map order), returning the first unblocked match.
     */
    method FindAny(name: string) returns (engine: string, alias: Alias?, ok: bool)
      ensures ok ==> engine in index && Find(engine, normalize(name)) == (alias, true)
      ensures !ok ==> engine == "" && alias == null
      ensures !ok <==> forall e :: e in index ==> !Find(e, normalize(name)).1
    {
      var key := normalize(name);
      var remaining := index.Keys;
      while remaining != {}
        invariant remaining <= index.Keys
        invariant forall e :: e in index && e !in remaining ==> !Find(e, key).1
        decreases remaining
      {
        var e :| e in remaining;
        remaining := remaining - {e};
        var r := Find(e, key);
        if r.1 {
          return e, r.0, true;
        }
      }
      return "", null, false;
    }

    /** Resolves a framework through the engine it came from. */
    function FindFramework(frame: Framework): (r: (Alias?, bool))
      reads this, aliases.Values
      ensures r == Find(frame.from, normalize(frame.name))
    {
      Find(frame.from, normalize(frame.name))
    }

    /**
     * Adds one record's alternate names to the index, engine by engine in
     * arbitrary (Go map) order, creating an engine's table when absent.
     */
    method AddToIndex(canonical: string, aliasMap: map<string, seq<string>>)
      modifies this`index
      ensures index == AddEntry(normalize, old(index), canonical, aliasMap)
    {
      ghost var idx0 := index;
      var engines := aliasMap.Keys;
      while engines != {}
        invariant engines <= aliasMap.Keys
        invariant index == AddEngines(normalize, idx0, canonical, aliasMap, aliasMap.Keys - engines)
        decreases engines
      {
        var engine :| engine in engines;
        ghost var done := aliasMap.Keys - engines;
        AddEnginesStep(normalize, idx0, canonical, aliasMap, done, engine);
        // the engine's table, created empty when the engine is new
        var table := if engine in index then index[engine] else map[];
        table := WriteTargets(normalize, table, aliasMap[engine], canonical);
        ghost var step := AddEngines(normalize, idx0, canonical, aliasMap, done + {engine});
        assert step == index[engine := table];
        index := index[engine := table];
        engines := engines - {engine};
        assert aliasMap.Keys - engines == done + {engine};
      }
      AddEnginesAll(normalize, idx0, canonical, aliasMap);
    }

    /**
     * The body of `Compile`'s loop for one record: lower-case its name,
     * rebuild its normalised key and blocked set, store it, index it.
     */
    method CompileRecord(alias: Alias)
      requires Valid()
      modifies this, alias
      ensures Valid()
      ensures alias.name == ToLower(old(alias.name))
      ensures alias.NormalizedFrom(normalize) && alias.BlockedFromList()
      ensures aliases == old(aliases)[alias.name := alias]
      ensures index == AddEntry(normalize, old(index), alias.name, alias.aliasMap)
    {
      var key := ToLower(alias.name);
      ToLowerIdempotent(alias.name);
      var blocked := BlockedSet(alias.block);
      alias.name, alias.normalizedName, alias.blocked := key, normalize(key), blocked;
      aliases := aliases[key := alias];
      ghost var idx := index;
      AddToIndex(key, alias.aliasMap);
      forall ns, k | ns in index && k in index[ns]
        ensures index[ns][k] in aliases
      {
        AddEntryValues(normalize, idx, key, alias.aliasMap, ns, k);
      }
      // A record stored under another name is another object: its fields are untouched.
      forall c | c in aliases && c != key
        ensures ToLower(c) == c && aliases[c].name == c
        ensures aliases[c].NormalizedFrom(normalize) && aliases[c].BlockedFromList()
      {
        assert aliases[c] == old(aliases[c]);
        assert old(aliases[c].name) == c && ToLower(c) == c && key == ToLower(old(alias.name));
      }
    }

    /**
     * Step `i` of `Compile`: compiles `batch[i]` (registration `regs[i]`)
     * and keeps the records compiled before it compiled.
     */
    method CompileAt(batch: seq<Alias>, i: nat, ghost regs: seq<(string, Alias)>)
      requires Valid() && i < |batch| == |regs|
      requires forall j :: 0 <= j < |batch| ==> ToLower(batch[j].name) == regs[j].0 && regs[j].1 == batch[j]
      requires forall j :: 0 <= j < i ==>
        batch[j].name == regs[j].0 && batch[j].NormalizedFrom(normalize) && batch[j].BlockedFromList()
      modifies this, batch[i]
      ensures Valid()
      ensures forall j :: 0 <= j < |batch| ==> ToLower(batch[j].name) == regs[j].0
      ensures forall j :: 0 <= j <= i ==>
        batch[j].name == regs[j].0 && batch[j].NormalizedFrom(normalize) && batch[j].BlockedFromList()
      ensures aliases == old(aliases)[regs[i].0 := regs[i].1]
      ensures index == AddEntry(normalize, old(index), regs[i].0, regs[i].1.aliasMap)
    {
      var alias := batch[i];
      ToLowerIdempotent(alias.name);
      CompileRecord(alias);
      forall j | 0 <= j <= i
        ensures batch[j].name == regs[j].0 && batch[j].NormalizedFrom(normalize) && batch[j].BlockedFromList()
      {
        if batch[j] == alias {
          assert regs[j].0 == regs[i].0;
        }
      }
    }

    /**
     * Compiles a batch of records in order: each record's name is
     * lower-cased, its normalised key and blocked set are rebuilt, it is
     * stored under its name, and its alternate names are indexed. Later
     * records overwrite earlier ones. It never fails.
     */
    method Compile(batch: seq<Alias>) returns (err: Option<string>)
      requires Valid()
      modifies this, batch
      ensures Valid()
      ensures err == None
      ensures forall a :: a in batch ==>
        && a.name == ToLower(old(a.name))
        && a.NormalizedFrom(normalize)
        && a.BlockedFromList()
      ensures aliases == Assign(old(aliases), old(Registrations(batch)))
      ensures index == IndexFold(normalize, old(index), old(Registrations(batch)))
    {
      ghost var regs := Registrations(batch);
      var i := 0;
      while i < |batch|
        invariant 0 <= i <= |batch|
        invariant Valid()
        invariant forall j :: 0 <= j < |batch| ==> ToLower(batch[j].name) == regs[j].0
        invariant forall j :: 0 <= j < i ==>
          batch[j].name == regs[j].0 && batch[j].NormalizedFrom(normalize) && batch[j].BlockedFromList()
        invariant aliases == Assign(old(aliases), regs[..i])
        invariant index == IndexFold(normalize, old(index), regs[..i])
      {
        AssignSnoc(old(aliases), regs, i);
        IndexFoldSnoc(normalize, old(index), regs, i);
        CompileAt(batch, i, regs);
        i := i + 1;
      }
      assert regs[..i] == regs;
      return None;
    }

    /**
     * Compiles further records into a populated registry. The error of
     * `Compile` is discarded; since `Compile` never fails, this is `Compile`.
     */
    method AppendAliases(other: seq<Alias>)
      requires Valid()
      modifies this, other
      ensures Valid()
      ensures forall a :: a in other ==>
        && a.name == ToLower(old(a.name))
        && a.NormalizedFrom(normalize)
        && a.BlockedFromList()
      ensures aliases == Assign(old(aliases), old(Registrations(other)))
      ensures index == IndexFold(normalize, old(index), old(Registrations(other)))
    {
      var err := Compile(other);
      if err.Some? {
        return;
      }
    }
  }

  /** A new registry compiled from `batch`, as `NewAliases` builds it. */
  method Build(normalize: string -> string, batch: seq<Alias>) returns (registry: Aliases)
    modifies batch
    ensures fresh(registry) && registry.Valid() && registry.normalize == normalize
    ensures registry.aliases == Assign(map[], old(Registrations(batch)))
    ensures registry.index == IndexFold(normalize, map[], old(Registrations(batch)))
    ensures forall a :: a in batch ==>
      && a.name == ToLower(old(a.name))
      && a.NormalizedFrom(normalize)
      && a.BlockedFromList()
  {
    registry := new Aliases(normalize);
    // Go propagates an error of Compile here; Compile never returns one.
    var _ := registry.Compile(batch);
  }

  /**
   * Builds a registry from the caller's records followed by the decoded
   * embedded records (`decoded` stands for the YAML decoding of the embedded
   * data, `Failure` for a decoding error). The embedded records are compiled
   * last, so they win every canonical-name collision.
   */
  method NewAliases(normalize: string -> string, origin: seq<Alias>, decoded: Result<seq<Alias>, string>)
    returns (r: Result<Aliases, string>)
    modifies origin, if decoded.Success? then decoded.value else []
    ensures decoded.Failure? ==> r == Failure(decoded.error)
    ensures decoded.Success? ==> r.Success? && fresh(r.value) && r.value.Valid()
    ensures decoded.Success? ==>
      var regs := old(Registrations(origin + decoded.value));
      && r.value.normalize == normalize
      && r.value.aliases == Assign(map[], regs)
      && r.value.index == IndexFold(normalize, map[], regs)
    ensures decoded.Success? ==>
      forall a :: a in origin || a in decoded.value ==>
        && a.name == ToLower(old(a.name))
        && a.NormalizedFrom(normalize)
        && a.BlockedFromList()
    ensures decoded.Success? ==>
      var embedded := old(Registrations(decoded.value));
      forall k :: k in WrittenKeys(embedded) ==>
        k in Assign(map[], embedded) && k in r.value.aliases &&
        r.value.aliases[k] == Assign(map[], embedded)[k]
  {
    if decoded.Failure? {
      return Failure(decoded.error);
    }
    var embedded := decoded.value;
    RegistrationsConcat(origin, embedded);
    LaterLayerWinsAll(map[], Registrations(origin), Registrations(embedded));
    var registry := Build(normalize, origin + embedded);
    return Success(registry);
  }
}
