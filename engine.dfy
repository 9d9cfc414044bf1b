/**
 * The fingerprint engine orchestrator of fingers/engine.go: it owns the
 * HTTP and socket signature collections, the active-eligible HTTP subset,
 * the port-grouped socket index and the two favicon hash indices, and runs
 * the socket fallback chain.
 *
 * Signature compilation, rule evaluation, port grouping and the matching of
 * a signature collection belong to code that is not part of this model;
 * they are the fields of an `Evaluator` value the engine is built with.
 */
module Fingers {
  import opened Wrappers
  import opened Maps
  import opened Common

  const HTTPProtocol := "http"
  const TCPProtocol := "tcp"
  const UDPProtocol := "udp"

  /** The engine's identifier (`Name()`). */
  const EngineName := "fingers"

  /** The error `Compile` reports when there is no HTTP collection. */
  const NilFingersError := "fingers is nil"

  // ---------------------------------------------------------------------
  // Signatures and their external evaluator
  // ---------------------------------------------------------------------

  /** The favicon hashes one rule declares, in two hash spaces. */
  datatype Favicon = Favicon(mmh3: seq<string>, md5: seq<string>)

  /** A rule of a signature; only its optional favicon part is read by the engine. */
  datatype Rule = Rule(favicon: Option<Favicon>)

  /** A signature (`Finger`): a named, protocol-tagged bundle of rules. */
  datatype Finger = Finger(name: string, protocol: string, isActive: bool, rules: seq<Rule>)

  /** The matcher input that `NewContent` builds from raw bytes and certificate text. */
  datatype Content = Content(data: seq<bv8>, cert: string, isHTTP: bool)

  datatype HashKind = Mmh3 | Md5

  /**
   * The collaborators the engine calls but does not define:
   * `compile(f, isSocket)` is `f.Compile(isSocket)` (an error or none);
   * `groupByPort` is `Fingers.GroupByPort`; `matchOne` is a single
   * signature's `Match`; `groupMatch` is a collection's `Match` with
   * stop-at-first set; `passiveMatch` and `activeMatch` are a collection's
   * `PassiveMatch` and `ActiveMatch` without stop-at-first.
   */
  datatype Evaluator = Evaluator(
    compile: (Finger, bool) -> Option<string>,
    groupByPort: seq<Finger> -> map<string, seq<Finger>>,
    matchOne: (Finger, Content, int) -> Option<(Framework, Option<Vuln>)>,
    groupMatch: (seq<Finger>, Content, int) -> (seq<Framework>, seq<Vuln>),
    passiveMatch: (seq<Finger>, Content) -> (seq<Framework>, seq<Vuln>),
    activeMatch: (seq<Finger>, int) -> (seq<Framework>, seq<Vuln>))

  // ---------------------------------------------------------------------
  // Specification functions
  // ---------------------------------------------------------------------

  /** The elements of a Go slice that may be nil. */
  function Elems(o: Option<seq<Finger>>): seq<Finger>
  {
    if o.Some? then o.value else []
  }

  /** Appending `xs` to a possibly nil slice; appending nothing leaves nil as nil. */
  function Extend(o: Option<seq<Finger>>, xs: seq<Finger>): Option<seq<Finger>>
  {
    if xs == [] then o else Some(Elems(o) + xs)
  }

  lemma ExtendSnoc(o: Option<seq<Finger>>, xs: seq<Finger>, f: Finger)
    ensures Extend(o, xs + [f]) == Some(Elems(Extend(o, xs)) + [f])
  {
    if xs == [] {
      assert xs + [f] == [f];
    } else {
      assert Elems(o) + (xs + [f]) == (Elems(o) + xs) + [f];
    }
  }

  lemma ExtendElems(o: Option<seq<Finger>>, xs: seq<Finger>)
    ensures Elems(Extend(o, xs)) == Elems(o) + xs
  {
    if xs == [] {
      assert Elems(o) + xs == Elems(o);
    }
  }

  /** The first element of a result list, nil when it is empty (`One()`). */
  function First<T>(s: seq<T>): Option<T>
  {
    if s == [] then None else Some(s[0])
  }

  /** The length of the longest prefix of `fs` whose signatures all compile. */
  function CompiledPrefix(ev: Evaluator, fs: seq<Finger>, isSocket: bool): (n: nat)
    ensures n <= |fs|
    ensures n < |fs| ==> ev.compile(fs[n], isSocket).Some?
  {
    if fs == [] then 0
    else if ev.compile(fs[0], isSocket).Some? then 0
    else 1 + CompiledPrefix(ev, fs[1..], isSocket)
  }

  /** The signatures before `CompiledPrefix` all compile. */
  lemma {:induction false} CompiledPrefixFacts(ev: Evaluator, fs: seq<Finger>, isSocket: bool)
    ensures forall i :: 0 <= i < CompiledPrefix(ev, fs, isSocket) ==> ev.compile(fs[i], isSocket).None?
    decreases |fs|
  {
    if fs != [] && ev.compile(fs[0], isSocket).None? {
      CompiledPrefixFacts(ev, fs[1..], isSocket);
      forall i | 0 <= i < CompiledPrefix(ev, fs, isSocket)
        ensures ev.compile(fs[i], isSocket).None?
      {
        if i > 0 {
          assert fs[i] == fs[1..][i - 1];
        }
      }
    }
  }

  /** The active signatures of `fs`, in order. */
  function Actives(fs: seq<Finger>): seq<Finger>
  {
    if fs == [] then []
    else
      var last := fs[|fs| - 1];
      Actives(fs[..|fs| - 1]) + (if last.isActive then [last] else [])
  }

  /** The signatures of `fs` tagged with protocol `p`, in order. */
  function OfProtocol(fs: seq<Finger>, p: string): seq<Finger>
  {
    if fs == [] then []
    else
      var last := fs[|fs| - 1];
      OfProtocol(fs[..|fs| - 1], p) + (if last.protocol == p then [last] else [])
  }

  /** `Actives` keeps exactly the active signatures. */
  lemma {:induction false} ActivesMembers(fs: seq<Finger>)
    ensures forall f :: f in Actives(fs) <==> f in fs && f.isActive
    decreases |fs|
  {
    if fs != [] {
      var p := fs[..|fs| - 1];
      ActivesMembers(p);
      assert fs == p + [fs[|fs| - 1]];
    }
  }

  /** `OfProtocol` keeps exactly the signatures of protocol `p`, and no more of them. */
  lemma {:induction false} OfProtocolMembers(fs: seq<Finger>, p: string)
    ensures forall f :: f in OfProtocol(fs, p) <==> f in fs && f.protocol == p
    ensures |OfProtocol(fs, p)| <= |fs|
    decreases |fs|
  {
    if fs != [] {
      var q := fs[..|fs| - 1];
      OfProtocolMembers(q, p);
      assert fs == q + [fs[|fs| - 1]];
    }
  }

  lemma ActivesSnoc(fs: seq<Finger>, i: nat)
    requires i < |fs|
    ensures Actives(fs[..i + 1]) == if fs[i].isActive then Actives(fs[..i]) + [fs[i]] else Actives(fs[..i])
  {
    assert fs[..i + 1][..i] == fs[..i];
    assert Actives(fs[..i]) + [] == Actives(fs[..i]);
  }

  lemma ActivesPush(fs: seq<Finger>, f: Finger)
    ensures Actives(fs + [f]) == if f.isActive then Actives(fs) + [f] else Actives(fs)
  {
    assert (fs + [f])[..|fs|] == fs;
    assert Actives(fs) + [] == Actives(fs);
  }

  function Hashes(fav: Favicon, kind: HashKind): seq<string>
  {
    match kind
    case Mmh3 => fav.mmh3
    case Md5 => fav.md5
  }

  /** The index writes of one hash list: each hash to the signature name. */
  function HashWrites(hashes: seq<string>, name: string): seq<(string, string)>
  {
    if hashes == [] then []
    else HashWrites(hashes[..|hashes| - 1], name) + [(hashes[|hashes| - 1], name)]
  }

  /** Writes each hash of `hashes`, in order, to the signature name `name`. */
  method WriteHashes(m: map<string, string>, hashes: seq<string>, name: string) returns (r: map<string, string>)
    ensures r == Assign(m, HashWrites(hashes, name))
  {
    r := m;
    var k := 0;
    while k < |hashes|
      invariant 0 <= k <= |hashes|
      invariant r == Assign(m, HashWrites(hashes[..k], name))
    {
      assert hashes[..k + 1][..k] == hashes[..k];
      r := r[hashes[k] := name];
      k := k + 1;
    }
    assert hashes[..k] == hashes;
  }

  /** The index writes of a signature's rules, rule by rule. */
  function RuleWrites(rules: seq<Rule>, name: string, kind: HashKind): seq<(string, string)>
  {
    if rules == [] then []
    else
      var last := rules[|rules| - 1];
      RuleWrites(rules[..|rules| - 1], name, kind)
        + (if last.favicon.Some? then HashWrites(Hashes(last.favicon.value, kind), name) else [])
  }

  /** Writing the rules up to `j` is writing those before `j` and then the hashes of rule `j`. */
  lemma IndexRuleStep(m: map<string, string>, rules: seq<Rule>, j: nat, name: string, kind: HashKind)
    requires j < |rules|
    ensures Assign(m, RuleWrites(rules[..j + 1], name, kind)) ==
      if rules[j].favicon.Some? then
        Assign(Assign(m, RuleWrites(rules[..j], name, kind)), HashWrites(Hashes(rules[j].favicon.value, kind), name))
      else Assign(m, RuleWrites(rules[..j], name, kind))
  {
    var w := RuleWrites(rules[..j], name, kind);
    assert rules[..j + 1][..j] == rules[..j];
    if rules[j].favicon.Some? {
      AssignConcat(m, w, HashWrites(Hashes(rules[j].favicon.value, kind), name));
    } else {
      assert RuleWrites(rules[..j + 1], name, kind) == w + [];
      assert w + [] == w;
    }
  }

  /** The index writes of a signature collection, signature by signature. */
  function FaviconWrites(fs: seq<Finger>, kind: HashKind): seq<(string, string)>
  {
    if fs == [] then []
    else FaviconWrites(fs[..|fs| - 1], kind) + RuleWrites(fs[|fs| - 1].rules, fs[|fs| - 1].name, kind)
  }

  /** Signature `f` declares hash `h` in hash space `kind` in one of its rules. */
  ghost predicate Declares(f: Finger, h: string, kind: HashKind)
  {
    exists r :: r in f.rules && r.favicon.Some? && h in Hashes(r.favicon.value, kind)
  }

  lemma {:induction false} HashWritesFacts(hashes: seq<string>, name: string, h: string)
    ensures h in WrittenKeys(HashWrites(hashes, name)) <==> h in hashes
    ensures forall j :: 0 <= j < |HashWrites(hashes, name)| ==> HashWrites(hashes, name)[j].1 == name
    decreases |hashes|
  {
    if hashes != [] {
      var p := hashes[..|hashes| - 1];
      HashWritesFacts(p, name, h);
      assert hashes == p + [hashes[|hashes| - 1]];
      WrittenKeysConcat(HashWrites(p, name), [(hashes[|hashes| - 1], name)]);
      assert [(hashes[|hashes| - 1], name)][0].0 == hashes[|hashes| - 1];
      assert WrittenKeys([(hashes[|hashes| - 1], name)]) == {hashes[|hashes| - 1]};
      var w := HashWrites(hashes, name);
      assert forall j :: 0 <= j < |HashWrites(p, name)| ==> w[j] == HashWrites(p, name)[j];
    }
  }

  lemma {:induction false} RuleWritesFacts(rules: seq<Rule>, name: string, kind: HashKind, h: string)
    ensures h in WrittenKeys(RuleWrites(rules, name, kind)) <==>
      exists r :: r in rules && r.favicon.Some? && h in Hashes(r.favicon.value, kind)
    ensures forall j :: 0 <= j < |RuleWrites(rules, name, kind)| ==> RuleWrites(rules, name, kind)[j].1 == name
    decreases |rules|
  {
    if rules != [] {
      var p := rules[..|rules| - 1];
      var last := rules[|rules| - 1];
      RuleWritesFacts(p, name, kind, h);
      assert rules == p + [last];
      var a := RuleWrites(p, name, kind);
      var b := if last.favicon.Some? then HashWrites(Hashes(last.favicon.value, kind), name) else [];
      if last.favicon.Some? {
        HashWritesFacts(Hashes(last.favicon.value, kind), name, h);
      }
      WrittenKeysConcat(a, b);
      assert RuleWrites(rules, name, kind) == a + b;
    }
  }

  /**
   * After indexing, hash `h` maps to the name of the last signature of the
   * collection that declares it.
   */
  lemma {:induction false} FaviconLastWriter(m: map<string, string>, fs: seq<Finger>, i: nat, h: string, kind: HashKind)
    requires i < |fs| && Declares(fs[i], h, kind)
    requires forall j :: i < j < |fs| ==> !Declares(fs[j], h, kind)
    ensures h in Assign(m, FaviconWrites(fs, kind))
    ensures Assign(m, FaviconWrites(fs, kind))[h] == fs[i].name
    decreases |fs|
  {
    var p := fs[..|fs| - 1];
    var last := fs[|fs| - 1];
    var a := FaviconWrites(p, kind);
    var b := RuleWrites(last.rules, last.name, kind);
    AssignConcat(m, a, b);
    RuleWritesFacts(last.rules, last.name, kind, h);
    if i == |fs| - 1 {
      AssignUniform(Assign(m, a), b, h, last.name);
    } else {
      assert forall j :: i < j < |p| ==> p[j] == fs[j];
      FaviconLastWriter(m, p, i, h, kind);
      AssignUntouched(Assign(m, a), b, h);
    }
  }

  /** A hash that no signature of the collection declares keeps its old entry. */
  lemma {:induction false} FaviconUntouched(m: map<string, string>, fs: seq<Finger>, h: string, kind: HashKind)
    requires forall j :: 0 <= j < |fs| ==> !Declares(fs[j], h, kind)
    ensures h in Assign(m, FaviconWrites(fs, kind)) <==> h in m
    ensures h in m ==> Assign(m, FaviconWrites(fs, kind))[h] == m[h]
    decreases |fs|
  {
    if fs != [] {
      var p := fs[..|fs| - 1];
      var last := fs[|fs| - 1];
      var a := FaviconWrites(p, kind);
      var b := RuleWrites(last.rules, last.name, kind);
      AssignConcat(m, a, b);
      RuleWritesFacts(last.rules, last.name, kind, h);
      assert forall j :: 0 <= j < |p| ==> p[j] == fs[j];
      FaviconUntouched(m, p, h, kind);
      AssignUntouched(Assign(m, a), b, h);
    }
  }

  /** The part of the engine state that `Append` changes. */
  datatype Filing = Filing(http: Option<seq<Finger>>, active: seq<Finger>, socket: Option<seq<Finger>>)

  /** Files one compiled signature: HTTP (and active), TCP, or nowhere. */
  function FileOne(s: Filing, f: Finger): Filing
  {
    if f.protocol == HTTPProtocol then
      Filing(Some(Elems(s.http) + [f]), if f.isActive then s.active + [f] else s.active, s.socket)
    else if f.protocol == TCPProtocol then
      s.(socket := Some(Elems(s.socket) + [f]))
    else s
  }

  /** Files signatures one after another. */
  function FileAll(s: Filing, fs: seq<Finger>): Filing
  {
    if fs == [] then s else FileOne(FileAll(s, fs[..|fs| - 1]), fs[|fs| - 1])
  }

  /**
   * Filing a sequence appends its HTTP signatures to the HTTP collection,
   * the active ones among them to the active list, and its TCP signatures
   * to the socket collection; an empty addition leaves a nil collection nil.
   */
  lemma {:induction false} FileAllSpec(s: Filing, fs: seq<Finger>)
    ensures FileAll(s, fs) == Filing(Extend(s.http, OfProtocol(fs, HTTPProtocol)),
                                     s.active + Actives(OfProtocol(fs, HTTPProtocol)),
                                     Extend(s.socket, OfProtocol(fs, TCPProtocol)))
    decreases |fs|
  {
    if fs == [] {
      assert s.active + [] == s.active;
    } else {
      var p := fs[..|fs| - 1];
      var f := fs[|fs| - 1];
      FileAllSpec(s, p);
      var h := OfProtocol(p, HTTPProtocol);
      var t := OfProtocol(p, TCPProtocol);
      assert OfProtocol(fs, HTTPProtocol) == h + (if f.protocol == HTTPProtocol then [f] else []);
      assert OfProtocol(fs, TCPProtocol) == t + (if f.protocol == TCPProtocol then [f] else []);
      FileOneStep(s, h, t, f);
    }
  }

  lemma FileOneStep(s: Filing, h: seq<Finger>, t: seq<Finger>, f: Finger)
    ensures var h' := h + (if f.protocol == HTTPProtocol then [f] else []);
      var t' := t + (if f.protocol == TCPProtocol then [f] else []);
      FileOne(Filing(Extend(s.http, h), s.active + Actives(h), Extend(s.socket, t)), f)
        == Filing(Extend(s.http, h'), s.active + Actives(h'), Extend(s.socket, t'))
  {
    if f.protocol == HTTPProtocol {
      assert f.protocol[0] != TCPProtocol[0];
      assert t + [] == t;
      ExtendSnoc(s.http, h, f);
      ActivesPush(h, f);
      assert s.active + (Actives(h) + [f]) == s.active + Actives(h) + [f];
    } else if f.protocol == TCPProtocol {
      assert h + [] == h;
      ExtendSnoc(s.socket, t, f);
    } else {
      assert h + [] == h;
      assert t + [] == t;
    }
  }

  /** Filing grows the total signature count by the "http" and "tcp" signatures filed. */
  lemma FiledCount(s: Filing, fs: seq<Finger>)
    ensures var r := FileAll(s, fs);
      |Elems(r.http)| + |Elems(r.socket)|
        == |Elems(s.http)| + |Elems(s.socket)| + |OfProtocol(fs, HTTPProtocol)| + |OfProtocol(fs, TCPProtocol)|
  {
    FileAllSpec(s, fs);
    ExtendElems(s.http, OfProtocol(fs, HTTPProtocol));
    ExtendElems(s.socket, OfProtocol(fs, TCPProtocol));
  }

  /** Filing keeps the active list within the active HTTP signatures. */
  lemma AppendKeepsActiveSubset(s: Filing, fs: seq<Finger>)
    requires forall f :: f in s.active ==> f.isActive && f in Elems(s.http)
    ensures var r := FileAll(s, fs);
      forall f :: f in r.active ==> f.isActive && f in Elems(r.http)
  {
    var h := OfProtocol(fs, HTTPProtocol);
    FileAllSpec(s, fs);
    ExtendElems(s.http, h);
    ActivesMembers(h);
  }

  /** The names of a signature collection. */
  function Names(fs: seq<Finger>): set<string>
    decreases |fs|
  {
    if fs == [] then {} else Names(fs[..|fs| - 1]) + {fs[|fs| - 1].name}
  }

  /** A name is in `Names(fs)` exactly when some signature of `fs` carries it. */
  lemma {:induction false} NamesMember(fs: seq<Finger>, n: string)
    ensures n in Names(fs) <==> exists i :: 0 <= i < |fs| && fs[i].name == n
    decreases |fs|
  {
    if fs != [] {
      var p := fs[..|fs| - 1];
      NamesMember(p, n);
      assert forall i :: 0 <= i < |p| ==> p[i] == fs[i];
      if exists i :: 0 <= i < |fs| && fs[i].name == n {
        var i :| 0 <= i < |fs| && fs[i].name == n;
        if i < |p| {
          assert p[i].name == n;
        }
      }
    }
  }

  lemma NamesSnoc(fs: seq<Finger>, k: nat)
    requires k < |fs|
    ensures Names(fs[..k + 1]) == Names(fs[..k]) + {fs[k].name}
  {
    assert fs[..k + 1][..k] == fs[..k];
  }

  lemma NamesAll(fs: seq<Finger>)
    ensures Names(fs[..|fs|]) == Names(fs)
  {
    assert fs[..|fs|] == fs;
  }

  lemma {:induction false} NamesConcat(a: seq<Finger>, b: seq<Finger>)
    ensures Names(a + b) == Names(a) + Names(b)
    decreases |b|
  {
    if b == [] {
      assert a + b == a;
    } else {
      var b' := b[..|b| - 1];
      assert (a + b)[..|a + b| - 1] == a + b';
      assert (a + b)[|a + b| - 1] == b[|b| - 1];
      NamesConcat(a, b');
    }
  }

  /** No two signatures of `fs` share a name. */
  predicate DistinctNames(fs: seq<Finger>)
  {
    forall i, j :: 0 <= i < j < |fs| ==> fs[i].name != fs[j].name
  }

  lemma DistinctConcat(a: seq<Finger>, b: seq<Finger>, names: set<string>)
    requires DistinctNames(a) && DistinctNames(b) && Names(a) <= names
    requires forall i :: 0 <= i < |b| ==> b[i].name !in names
    ensures DistinctNames(a + b)
  {
    var ab := a + b;
    forall i, j | 0 <= i < j < |ab| ensures ab[i].name != ab[j].name {
      if j >= |a| && i < |a| {
        NamesMember(a, a[i].name);
        assert ab[i] == a[i];
        assert ab[j] == b[j - |a|];
      } else if i >= |a| {
        assert ab[i] == b[i - |a|] && ab[j] == b[j - |a|];
      } else {
        assert ab[i] == a[i] && ab[j] == a[j];
      }
    }
  }

  /**
   * The signatures of `fs` the third stage of socket matching evaluates
   * when the names in `seen` are already taken: in order, the first
   * signature carrying each name outside `seen`; a later signature with
   * the same name is never evaluated.
   */
  function FreshByName(fs: seq<Finger>, seen: set<string>): seq<Finger>
    decreases |fs|
  {
    if fs == [] then []
    else if fs[0].name in seen then FreshByName(fs[1..], seen)
    else [fs[0]] + FreshByName(fs[1..], seen + {fs[0].name})
  }

  /**
   * The fresh signatures of `fs` come from `fs`, carry names outside `seen`
   * and distinct from each other, and together with `seen` cover every name
   * of `fs`.
   */
  lemma {:induction false} FreshByNameFacts(fs: seq<Finger>, seen: set<string>)
    ensures var r := FreshByName(fs, seen);
      && (forall i :: 0 <= i < |r| ==> r[i] in fs && r[i].name !in seen)
      && DistinctNames(r)
      && (forall f :: f in fs ==> f.name in seen + Names(r))
    decreases |fs|
  {
    if fs != [] {
      var f0 := fs[0];
      assert fs == [f0] + fs[1..];
      if f0.name in seen {
        FreshByNameFacts(fs[1..], seen);
      } else {
        var seen' := seen + {f0.name};
        FreshByNameFacts(fs[1..], seen');
        var rest := FreshByName(fs[1..], seen');
        NamesConcat([f0], rest);
        assert [f0][..0] == [];
        DistinctConcat([f0], rest, seen');
        var r := [f0] + rest;
        forall i | 0 <= i < |r| ensures r[i] in fs && r[i].name !in seen {
          if i > 0 {
            assert r[i] == rest[i - 1];
          }
        }
      }
    }
  }

  /** What `FreshByNameFacts` says of the fresh signatures holds of any prefix of them. */
  lemma FreshPrefix(fs: seq<Finger>, seen: set<string>, t: seq<Finger>)
    requires t <= FreshByName(fs, seen)
    ensures forall i :: 0 <= i < |t| ==> t[i] in fs && t[i].name !in seen
    ensures DistinctNames(t)
    ensures t == FreshByName(fs, seen) ==> forall f :: f in fs ==> f.name in seen + Names(t)
  {
    FreshByNameFacts(fs, seen);
    var r := FreshByName(fs, seen);
    assert forall i :: 0 <= i < |t| ==> t[i] == r[i];
  }

  /**
   * The full evaluation order of the third stage when the groups are visited
   * along `order`: each group's fresh signatures after the names in `prior`
   * and the names evaluated in the groups before it.
   */
  function ScanSequence(groups: map<string, seq<Finger>>, order: seq<string>, prior: set<string>): seq<Finger>
    decreases |order|
  {
    if order == [] then []
    else
      var before := ScanSequence(groups, order[..|order| - 1], prior);
      var g := order[|order| - 1];
      before + FreshByName(if g in groups then groups[g] else [], prior + Names(before))
  }

  /** The group keys in a visiting order. */
  function Visits(order: seq<string>): set<string>
    decreases |order|
  {
    if order == [] then {} else Visits(order[..|order| - 1]) + {order[|order| - 1]}
  }

  /** No group is visited twice. */
  predicate DistinctKeys(order: seq<string>)
  {
    forall i, j :: 0 <= i < j < |order| ==> order[i] != order[j]
  }

  /** A key is in `Visits(order)` exactly when it occurs in `order`. */
  lemma {:induction false} VisitsMember(order: seq<string>, k: string)
    ensures k in Visits(order) <==> k in order
    decreases |order|
  {
    if order != [] {
      var p := order[..|order| - 1];
      VisitsMember(p, k);
      assert order == p + [order[|order| - 1]];
    }
  }

  /** Visiting a key not visited before keeps the order free of repeats. */
  lemma VisitNext(order: seq<string>, g: string)
    requires DistinctKeys(order) && g !in Visits(order)
    ensures DistinctKeys(order + [g])
    ensures Visits(order + [g]) == Visits(order) + {g}
  {
    assert (order + [g])[..|order|] == order;
    VisitsMember(order, g);
  }

  /** With a single group key, a visiting order without repeats is empty or that key. */
  lemma OnlyKeyOrder(order: seq<string>, k: string)
    requires DistinctKeys(order) && Visits(order) <= {k}
    ensures order == [] || order == [k]
  {
    if |order| >= 2 {
      var k0, k1 := order[0], order[1];
      VisitsMember(order, k0);
      VisitsMember(order, k1);
      assert false;
    }
    if |order| == 1 {
      VisitsMember(order, order[0]);
    }
  }

  /**
   * A group whose second signature shares the first one's name evaluates
   * only the first one.
   */
  lemma ShadowedSequence(a1: Finger, a2: Finger)
    requires a1.name == a2.name
    ensures ScanSequence(map["22" := [a1, a2]], ["22"], {}) == [a1]
  {
    var none: set<string> := {};
    assert [a1, a2][1..] == [a2] && [a2][1..] == [];
    assert FreshByName([a2], {a1.name}) == [];
    assert none + {a1.name} == {a1.name};
    assert FreshByName([a1, a2], none) == [a1] + FreshByName([a2], {a1.name});
    var order := ["22"];
    var groups := map["22" := [a1, a2]];
    var before := ScanSequence(groups, order[..0], none);
    assert order[..0] == [] && before == [] && none + Names(before) == none;
    assert ScanSequence(groups, order, none) == before + FreshByName([a1, a2], none);
  }

  /**
   * Visiting one more group extends the evaluation order by that group's
   * fresh signatures, so a prefix of them extends a prefix of the order.
   */
  lemma ScanSequenceSnoc(groups: map<string, seq<Finger>>, order: seq<string>, prior: set<string>,
                         g: string, t: seq<Finger>)
    requires g in groups
    requires t <= FreshByName(groups[g], prior + Names(ScanSequence(groups, order, prior)))
    ensures ScanSequence(groups, order, prior) + t <= ScanSequence(groups, order + [g], prior)
    ensures t == FreshByName(groups[g], prior + Names(ScanSequence(groups, order, prior))) ==>
      ScanSequence(groups, order, prior) + t == ScanSequence(groups, order + [g], prior)
  {
    assert (order + [g])[..|order|] == order;
    var before := ScanSequence(groups, order, prior);
    var rest := FreshByName(groups[g], prior + Names(before));
    assert (before + rest)[..|before + t|] == before + t;
  }

  /**
   * The evaluation order of the third stage holds signatures of the visited
   * groups only, with distinct names outside `prior`, and covers every name
   * of every visited group outside `prior`.
   */
  lemma {:induction false} ScanSequenceFacts(groups: map<string, seq<Finger>>, order: seq<string>, prior: set<string>)
    ensures var r := ScanSequence(groups, order, prior);
      && (forall i :: 0 <= i < |r| ==>
            r[i].name !in prior && exists g :: g in Visits(order) && g in groups && r[i] in groups[g])
      && DistinctNames(r)
      && (forall g, f :: g in Visits(order) && g in groups && f in groups[g] ==> f.name in prior + Names(r))
    decreases |order|
  {
    if order != [] {
      var p := order[..|order| - 1];
      var g := order[|order| - 1];
      ScanSequenceFacts(groups, p, prior);
      var before := ScanSequence(groups, p, prior);
      var fs := if g in groups then groups[g] else [];
      var rest := FreshByName(fs, prior + Names(before));
      FreshByNameFacts(fs, prior + Names(before));
      DistinctConcat(before, rest, prior + Names(before));
      NamesConcat(before, rest);
      var r := before + rest;
      forall i | 0 <= i < |r|
        ensures r[i].name !in prior && exists h :: h in Visits(order) && h in groups && r[i] in groups[h]
      {
        if i < |before| {
          assert r[i] == before[i];
        } else {
          assert r[i] == rest[i - |before|];
          assert g in Visits(order) && g in groups && r[i] in groups[g];
        }
      }
    }
  }

  /**
   * Appending the active signatures of a prefix of `hs` to a list of active
   * signatures of `hs` keeps it a list of active signatures of `hs`.
   */
  lemma ActivesPrefixSubset(a: seq<Finger>, hs: seq<Finger>, n: nat)
    requires n <= |hs|
    requires forall f :: f in a ==> f.isActive && f in hs
    ensures forall f :: f in a + Actives(hs[..n]) ==> f.isActive && f in hs
  {
    ActivesMembers(hs[..n]);
    forall f | f in a + Actives(hs[..n]) ensures f.isActive && f in hs {
      if f !in a {
        assert f in hs[..n];
      }
    }
  }

  // ---------------------------------------------------------------------
  // The engine
  // ---------------------------------------------------------------------

  /**
   * The engine state. `mmh3Fingers` and `md5Fingers` are the two tables of
   * the favicon engine the Go struct points to.
   */
  class FingersEngine {
    const ev: Evaluator
    var httpFingers: Option<seq<Finger>>
    var activeFingers: seq<Finger>
    var socketFingers: Option<seq<Finger>>
    var socketGroup: map<string, seq<Finger>>
    var mmh3Fingers: map<string, string>
    var md5Fingers: map<string, string>

    /** The engine as `NewFingersEngine` allocates it, before `Compile`. */
    constructor (ev: Evaluator, httpFingers: Option<seq<Finger>>, socketFingers: Option<seq<Finger>>)
      ensures this.ev == ev && this.httpFingers == httpFingers && this.socketFingers == socketFingers
      ensures activeFingers == [] && socketGroup == map[] && mmh3Fingers == map[] && md5Fingers == map[]
      ensures ActiveSubset()
    {
      this.ev := ev;
      this.httpFingers := httpFingers;
      this.activeFingers := [];
      this.socketFingers := socketFingers;
      this.socketGroup := map[];
      this.mmh3Fingers := map[];
      this.md5Fingers := map[];
    }

    /**
     * The active list holds only active signatures of the HTTP collection,
     * so the active match never evaluates anything else.
     */
    ghost predicate ActiveSubset()
      reads this`activeFingers, this`httpFingers
    {
      forall f :: f in activeFingers ==> f.isActive && f in Elems(httpFingers)
    }

    /** The number of signatures: HTTP and socket together. */
    function Len(): (r: nat)
      reads this
      ensures r == |Elems(httpFingers)| + |Elems(socketFingers)|
    {
      |Elems(httpFingers)| + |Elems(socketFingers)|
    }

    /** The socket group of `port`; a port without a group reads as empty, as in Go. */
    function Group(port: string): seq<Finger>
      reads this`socketGroup
    {
      if port in socketGroup then socketGroup[port] else []
    }

    /**
     * Compiles the HTTP signatures in order, failing at the first that does
     * not compile; the active ones compiled so far are appended to the
     * active list (which is not reset).
     */
    method CompileHTTP(hs: seq<Finger>) returns (err: Option<string>)
      requires httpFingers == Some(hs)
      modifies this`activeFingers
      ensures old(ActiveSubset()) ==> ActiveSubset()
      ensures var n := CompiledPrefix(ev, hs, false);
        && activeFingers == old(activeFingers) + Actives(hs[..n])
        && err == (if n < |hs| then ev.compile(hs[n], false) else None)
    {
      CompiledPrefixFacts(ev, hs, false);
      var i := 0;
      while i < |hs|
        invariant 0 <= i <= |hs|
        invariant i <= CompiledPrefix(ev, hs, false)
        invariant activeFingers == old(activeFingers) + Actives(hs[..i])
      {
        var e := ev.compile(hs[i], false);
        if e.Some? {
          if old(ActiveSubset()) {
            ActivesPrefixSubset(old(activeFingers), hs, i);
          }
          return e;
        }
        ActivesSnoc(hs, i);
        if hs[i].isActive {
          activeFingers := activeFingers + [hs[i]];
        }
        i := i + 1;
      }
      assert hs[..i] == hs;
      if old(ActiveSubset()) {
        ActivesPrefixSubset(old(activeFingers), hs, i);
      }
      return None;
    }

    /** Writes the favicon hashes of one rule into the two tables. */
    method IndexRule(rule: Rule, name: string)
      modifies this`mmh3Fingers, this`md5Fingers
      ensures rule.favicon.None? ==> mmh3Fingers == old(mmh3Fingers) && md5Fingers == old(md5Fingers)
      ensures rule.favicon.Some? ==>
        && mmh3Fingers == Assign(old(mmh3Fingers), HashWrites(rule.favicon.value.mmh3, name))
        && md5Fingers == Assign(old(md5Fingers), HashWrites(rule.favicon.value.md5, name))
    {
      if rule.favicon.Some? {
        mmh3Fingers := WriteHashes(mmh3Fingers, rule.favicon.value.mmh3, name);
        md5Fingers := WriteHashes(md5Fingers, rule.favicon.value.md5, name);
      }
    }

    /** Writes the favicon hashes of every rule of one signature, in order. */
    method IndexFinger(finger: Finger)
      modifies this`mmh3Fingers, this`md5Fingers
      ensures mmh3Fingers == Assign(old(mmh3Fingers), RuleWrites(finger.rules, finger.name, Mmh3))
      ensures md5Fingers == Assign(old(md5Fingers), RuleWrites(finger.rules, finger.name, Md5))
    {
      var j := 0;
      while j < |finger.rules|
        invariant 0 <= j <= |finger.rules|
        invariant mmh3Fingers == Assign(old(mmh3Fingers), RuleWrites(finger.rules[..j], finger.name, Mmh3))
        invariant md5Fingers == Assign(old(md5Fingers), RuleWrites(finger.rules[..j], finger.name, Md5))
      {
        IndexRule(finger.rules[j], finger.name);
        IndexRuleStep(old(mmh3Fingers), finger.rules, j, finger.name, Mmh3);
        IndexRuleStep(old(md5Fingers), finger.rules, j, finger.name, Md5);
        j := j + 1;
      }
      assert finger.rules[..j] == finger.rules;
    }

    /** Writes the favicon hashes of every rule of every signature, in order. */
    method IndexFavicons(hs: seq<Finger>)
      modifies this`mmh3Fingers, this`md5Fingers
      ensures mmh3Fingers == Assign(old(mmh3Fingers), FaviconWrites(hs, Mmh3))
      ensures md5Fingers == Assign(old(md5Fingers), FaviconWrites(hs, Md5))
    {
      var i := 0;
      while i < |hs|
        invariant 0 <= i <= |hs|
        invariant mmh3Fingers == Assign(old(mmh3Fingers), FaviconWrites(hs[..i], Mmh3))
        invariant md5Fingers == Assign(old(md5Fingers), FaviconWrites(hs[..i], Md5))
      {
        var finger := hs[i];
        IndexFinger(finger);
        assert hs[..i + 1][..i] == hs[..i];
        AssignConcat(old(mmh3Fingers), FaviconWrites(hs[..i], Mmh3), RuleWrites(finger.rules, finger.name, Mmh3));
        AssignConcat(old(md5Fingers), FaviconWrites(hs[..i], Md5), RuleWrites(finger.rules, finger.name, Md5));
        i := i + 1;
      }
      assert hs[..i] == hs;
    }

    /** Compiles the socket signatures in order, failing at the first that does not compile. */
    method CompileSocket(ss: seq<Finger>) returns (err: Option<string>)
      ensures err == (var m := CompiledPrefix(ev, ss, true); if m < |ss| then ev.compile(ss[m], true) else None)
    {
      CompiledPrefixFacts(ev, ss, true);
      var i := 0;
      while i < |ss|
        invariant 0 <= i <= |ss|
        invariant i <= CompiledPrefix(ev, ss, true)
      {
        var e := ev.compile(ss[i], true);
        if e.Some? {
          return e;
        }
        i := i + 1;
      }
      return None;
    }

    /**
     * Compiles the engine: the HTTP signatures (fail fast, appending the
     * active ones), then the favicon tables from every HTTP signature, then,
     * when there is a socket collection, the socket signatures (fail fast)
     * and the port groups. The collections themselves are not changed.
     */
    method Compile() returns (err: Option<string>)
      modifies this`activeFingers, this`socketGroup, this`mmh3Fingers, this`md5Fingers
      ensures old(ActiveSubset()) ==> ActiveSubset()
      ensures httpFingers == old(httpFingers) && socketFingers == old(socketFingers)
      ensures httpFingers.None? ==>
        && err == Some(NilFingersError)
        && activeFingers == old(activeFingers) && socketGroup == old(socketGroup)
        && mmh3Fingers == old(mmh3Fingers) && md5Fingers == old(md5Fingers)
      ensures httpFingers.Some? ==>
        var hs := httpFingers.value;
        var n := CompiledPrefix(ev, hs, false);
        && activeFingers == old(activeFingers) + Actives(hs[..n])
        && (n < |hs| ==>
              && err == ev.compile(hs[n], false)
              && socketGroup == old(socketGroup)
              && mmh3Fingers == old(mmh3Fingers) && md5Fingers == old(md5Fingers))
        && (n == |hs| ==>
              && mmh3Fingers == Assign(old(mmh3Fingers), FaviconWrites(hs, Mmh3))
              && md5Fingers == Assign(old(md5Fingers), FaviconWrites(hs, Md5)))
      ensures httpFingers.Some? && CompiledPrefix(ev, httpFingers.value, false) == |httpFingers.value| ==>
        && (socketFingers.None? ==> err == None && socketGroup == old(socketGroup))
        && (socketFingers.Some? ==>
              var ss := socketFingers.value;
              var m := CompiledPrefix(ev, ss, true);
              && (m < |ss| ==> err == ev.compile(ss[m], true) && socketGroup == old(socketGroup))
              && (m == |ss| ==> err == None && socketGroup == ev.groupByPort(ss)))
    {
      if httpFingers.None? {
        return Some(NilFingersError);
      }
      var hs := httpFingers.value;
      err := CompileHTTP(hs);
      if err.Some? {
        return err;
      }
      IndexFavicons(hs);
      if socketFingers.Some? {
        var ss := socketFingers.value;
        err := CompileSocket(ss);
        if err.Some? {
          return err;
        }
        socketGroup := ev.groupByPort(ss);
      }
      return None;
    }

    /**
     * Compiles new signatures one by one (as HTTP signatures) and files each
     * by protocol: "http" into the HTTP collection (and the active list when
     * active), "tcp" into the socket collection, anything else nowhere. It
     * stops at the first signature that does not compile, keeping what was
     * filed before it. The port groups and the favicon tables are left as
     * they are, so they do not reflect what was appended.
     */
    method Append(fingers: seq<Finger>) returns (err: Option<string>)
      modifies this`httpFingers, this`activeFingers, this`socketFingers
      ensures old(ActiveSubset()) ==> ActiveSubset()
      ensures var n := CompiledPrefix(ev, fingers, false);
        var http := OfProtocol(fingers[..n], HTTPProtocol);
        var tcp := OfProtocol(fingers[..n], TCPProtocol);
        && err == (if n < |fingers| then ev.compile(fingers[n], false) else None)
        && httpFingers == Extend(old(httpFingers), http)
        && activeFingers == old(activeFingers) + Actives(http)
        && socketFingers == Extend(old(socketFingers), tcp)
        && Len() == old(Len()) + |http| + |tcp|
      ensures socketGroup == old(socketGroup)
      ensures mmh3Fingers == old(mmh3Fingers) && md5Fingers == old(md5Fingers)
    {
      ghost var s0 := Filing(httpFingers, activeFingers, socketFingers);
      var n;
      n, err := FileCompiled(fingers);
      FileAllSpec(s0, fingers[..n]);
      FiledCount(s0, fingers[..n]);
      if old(ActiveSubset()) {
        AppendKeepsActiveSubset(s0, fingers[..n]);
      }
    }

    /**
     * The loop of `Append`: compiles and files signatures in order until the
     * first that does not compile, and returns how many were filed.
     */
    method FileCompiled(fingers: seq<Finger>) returns (n: nat, err: Option<string>)
      modifies this`httpFingers, this`activeFingers, this`socketFingers
      ensures n == CompiledPrefix(ev, fingers, false)
      ensures err == (if n < |fingers| then ev.compile(fingers[n], false) else None)
      ensures Filing(httpFingers, activeFingers, socketFingers)
        == FileAll(Filing(old(httpFingers), old(activeFingers), old(socketFingers)), fingers[..n])
    {
      ghost var s0 := Filing(httpFingers, activeFingers, socketFingers);
      CompiledPrefixFacts(ev, fingers, false);
      n := 0;
      while n < |fingers|
        invariant n <= CompiledPrefix(ev, fingers, false)
        invariant Filing(httpFingers, activeFingers, socketFingers) == FileAll(s0, fingers[..n])
      {
        var f := fingers[n];
        var e := ev.compile(f, false);
        if e.Some? {
          return n, e;
        }
        assert fingers[..n + 1][..n] == fingers[..n];
        File(f);
        n := n + 1;
      }
      return n, None;
    }

    /** Files one compiled signature by its protocol. */
    method File(f: Finger)
      modifies this`httpFingers, this`activeFingers, this`socketFingers
      ensures Filing(httpFingers, activeFingers, socketFingers)
        == FileOne(Filing(old(httpFingers), old(activeFingers), old(socketFingers)), f)
    {
      if f.protocol == HTTPProtocol {
        httpFingers := Some(Elems(httpFingers) + [f]);
        if f.isActive {
          activeFingers := activeFingers + [f];
        }
      } else if f.protocol == TCPProtocol {
        socketFingers := Some(Elems(socketFingers) + [f]);
      }
    }

    /** Signature `f` belongs to one of the port groups. */
    ghost predicate InSomeGroup(f: Finger)
      reads this`socketGroup
    {
      exists g :: g in socketGroup && f in socketGroup[g]
    }

    /** The names the first two stages of `SocketMatch` record as already tried. */
    function PriorNames(port: string): set<string>
      reads this`socketGroup
    {
      (if port != "" then Names(Group(port)) else {}) + Names(Group("0"))
    }

    /** Neither the port group nor the wildcard group matched, so stage 3 runs. */
    predicate ReachesScan(port: string, input: Content, level: int)
      reads this`socketGroup
    {
      && !(port != "" && |ev.groupMatch(Group(port), input, level).0| > 0)
      && |ev.groupMatch(Group("0"), input, level).0| == 0
    }

    /**
     * The signatures the third stage evaluates after the names in `prior`,
     * the groups having been visited along `order` (no group twice): a
     * prefix of the evaluation order `ScanSequence` of that visit, and all of
     * it, with every group visited, when nothing matched.
     */
    ghost predicate ScanOrder(prior: set<string>, found: Option<(Framework, Option<Vuln>)>,
                              order: seq<string>, tried: seq<Finger>)
      reads this`socketGroup
    {
      && DistinctKeys(order) && Visits(order) <= socketGroup.Keys
      && tried <= ScanSequence(socketGroup, order, prior)
      && (found.None? ==> tried == ScanSequence(socketGroup, order, prior) && Visits(order) == socketGroup.Keys)
    }

    /**
     * The evaluated signatures come from the groups and have distinct names
     * outside `prior`; with no match, every name of every group outside
     * `prior` was evaluated.
     */
    ghost predicate ScanCovers(prior: set<string>, found: Option<(Framework, Option<Vuln>)>, tried: seq<Finger>)
      reads this`socketGroup
    {
      && (forall i :: 0 <= i < |tried| ==> tried[i].name !in prior && InSomeGroup(tried[i]))
      && DistinctNames(tried)
      && (found.None? ==>
            forall g, f :: g in socketGroup && f in socketGroup[g] && f.name !in prior ==>
              exists i :: 0 <= i < |tried| && tried[i].name == f.name)
    }

    /**
     * All but the last evaluated signature did not match; a match was found
     * exactly when the last one matched, and then it is that signature's
     * result.
     */
    ghost predicate ScanResult(input: Content, level: int, found: Option<(Framework, Option<Vuln>)>, tried: seq<Finger>)
    {
      && (forall i :: 0 <= i < |tried| - 1 ==> ev.matchOne(tried[i], input, level).None?)
      && (found.Some? <==> |tried| > 0 && ev.matchOne(tried[|tried| - 1], input, level).Some?)
      && (found.Some? ==> found == ev.matchOne(tried[|tried| - 1], input, level))
    }

    /** The outcome of the third stage of `SocketMatch`. */
    ghost predicate ScanOutcome(prior: set<string>, input: Content, level: int,
                                found: Option<(Framework, Option<Vuln>)>,
                                order: seq<string>, tried: seq<Finger>)
      reads this`socketGroup
    {
      ScanOrder(prior, found, order, tried) && ScanCovers(prior, found, tried) && ScanResult(input, level, found, tried)
    }

    /**
     * Identifies a socket service: the port's group (when a port is given),
     * then the wildcard group "0", then every remaining signature of every
     * group (groups in arbitrary order), skipping each name already tried.
     * `hasCallback` says whether a callback was supplied; `calls` records
     * the callback invocations of the third stage. `order` lists the groups
     * the third stage visited and `tried` the signatures it evaluated, in
     * order.
     */
    method SocketMatch(data: seq<bv8>, port: string, level: int, hasCallback: bool)
      returns (frame: Option<Framework>, vuln: Option<Vuln>,
               calls: seq<(Framework, Option<Vuln>)>, ghost order: seq<string>, ghost tried: seq<Finger>)
      ensures var input := Content(data, "", false);
        var byPort := ev.groupMatch(Group(port), input, level);
        port != "" && |byPort.0| > 0 ==>
          frame == First(byPort.0) && vuln == First(byPort.1) && calls == [] && tried == []
      ensures var input := Content(data, "", false);
        var byPort := ev.groupMatch(Group(port), input, level);
        var wildcard := ev.groupMatch(Group("0"), input, level);
        !(port != "" && |byPort.0| > 0) && |wildcard.0| > 0 ==>
          frame == First(wildcard.0) && vuln == First(wildcard.1) && calls == [] && tried == []
      ensures var input := Content(data, "", false);
        ReachesScan(port, input, level) ==>
          && ScanOutcome(PriorNames(port), input, level,
               if frame.Some? then Some((frame.value, vuln)) else None, order, tried)
          && calls == if hasCallback && frame.Some? then [(frame.value, vuln)] else []
      ensures frame.None? ==> vuln.None? && calls == []
    {
      var input := Content(data, "", false);
      var already: set<string> := {};
      calls, order, tried := [], [], [];
      if port != "" {
        var byPort := ev.groupMatch(Group(port), input, level);
        if |byPort.0| > 0 {
          return First(byPort.0), First(byPort.1), [], [], [];
        }
        already := AddNames(already, Group(port));
      }
      var wildcard := ev.groupMatch(Group("0"), input, level);
      if |wildcard.0| > 0 {
        return First(wildcard.0), First(wildcard.1), [], [], [];
      }
      already := AddNames(already, Group("0"));
      assert already == PriorNames(port);
      var found;
      found, order, tried := ScanGroups(input, level, already);
      if found.None? {
        return None, None, [], order, tried;
      }
      if hasCallback {
        calls := [found.value];
      }
      return Some(found.value.0), found.value.1, calls, order, tried;
    }

    /**
     * The third stage of `SocketMatch`: every group in turn (in arbitrary
     * order), each signature whose name is not in `prior` and not yet
     * evaluated, until the first match.
     */
    method ScanGroups(input: Content, level: int, prior: set<string>)
      returns (found: Option<(Framework, Option<Vuln>)>, ghost order: seq<string>, ghost tried: seq<Finger>)
      ensures ScanOutcome(prior, input, level, found, order, tried)
    {
      var already := prior;
      order, tried := [], [];
      var groups := socketGroup.Keys;
      while groups != {}
        invariant ScanState(prior, input, level, groups, order, tried, already)
        decreases groups
      {
        var g :| g in groups;
        var seen; ghost var t;
        found, seen, t := ScanGroup(socketGroup[g], input, level, already);
        if found.Some? {
          ScanHit(prior, input, level, groups, order, tried, already, g, found, t);
          order, tried := order + [g], tried + t;
          return;
        }
        ScanMiss(prior, input, level, groups, order, tried, already, g, seen, t);
        order, tried := order + [g], tried + t;
        already := seen;
        groups := groups - {g};
      }
      found := None;
      ScanDone(prior, input, level, order, tried, already);
    }

    /** With every group visited and nothing matched, the third stage ends without a match. */
    lemma ScanDone(prior: set<string>, input: Content, level: int,
                   order: seq<string>, tried: seq<Finger>, already: set<string>)
      requires ScanState(prior, input, level, {}, order, tried, already)
      ensures ScanOutcome(prior, input, level, None, order, tried)
    {
      ScanShape(prior, order, tried);
    }

    /**
     * The state of the third stage between groups: `groups` are still to be
     * visited, `order` was visited (without repeats), the signatures
     * evaluated so far are that visit's whole evaluation order and none
     * matched, and `already` holds `prior` with their names.
     */
    ghost predicate ScanState(prior: set<string>, input: Content, level: int, groups: set<string>,
                              order: seq<string>, tried: seq<Finger>, already: set<string>)
      reads this`socketGroup
    {
      && groups <= socketGroup.Keys
      && DistinctKeys(order) && Visits(order) == socketGroup.Keys - groups
      && tried == ScanSequence(socketGroup, order, prior)
      && already == prior + Names(tried)
      && forall i :: 0 <= i < |tried| ==> ev.matchOne(tried[i], input, level).None?
    }

    /**
     * Scanning one more group `g` without a match (with the outcome
     * `ScanGroup` promises) leads to the next state between groups.
     */
    lemma ScanMiss(prior: set<string>, input: Content, level: int, groups: set<string>,
                   order: seq<string>, tried: seq<Finger>, already: set<string>,
                   g: string, seen: set<string>, t: seq<Finger>)
      requires ScanState(prior, input, level, groups, order, tried, already)
      requires g in groups
      requires seen == already + Names(t)
      requires t == FreshByName(socketGroup[g], already)
      requires forall i :: 0 <= i < |t| ==> ev.matchOne(t[i], input, level).None?
      ensures ScanState(prior, input, level, groups - {g}, order + [g], tried + t, seen)
    {
      ExtendScan(input, level, tried, t, None);
      NamesConcat(tried, t);
      ScanSequenceSnoc(socketGroup, order, prior, g, t);
      VisitNext(order, g);
    }

    /**
     * Scanning one more group `g` that ends in a match (with the outcome
     * `ScanGroup` promises) gives the outcome of the third stage.
     */
    lemma ScanHit(prior: set<string>, input: Content, level: int, groups: set<string>,
                  order: seq<string>, tried: seq<Finger>, already: set<string>,
                  g: string, found: Option<(Framework, Option<Vuln>)>, t: seq<Finger>)
      requires ScanState(prior, input, level, groups, order, tried, already)
      requires g in groups
      requires t <= FreshByName(socketGroup[g], already)
      requires forall i :: 0 <= i < |t| - 1 ==> ev.matchOne(t[i], input, level).None?
      requires |t| > 0 && found == ev.matchOne(t[|t| - 1], input, level) && found.Some?
      ensures ScanOutcome(prior, input, level, found, order + [g], tried + t)
    {
      ExtendScan(input, level, tried, t, found);
      ScanSequenceSnoc(socketGroup, order, prior, g, t);
      VisitNext(order, g);
      ScanShape(prior, order + [g], tried + t);
    }

    /**
     * One group's scan extends the evaluated signatures: up to a match they
     * stay unmatched, and the last of them is the group's last.
     */
    lemma ExtendScan(input: Content, level: int, tried: seq<Finger>, t: seq<Finger>,
                     found: Option<(Framework, Option<Vuln>)>)
      requires forall i :: 0 <= i < |tried| ==> ev.matchOne(tried[i], input, level).None?
      requires forall i :: 0 <= i < |t| - 1 ==> ev.matchOne(t[i], input, level).None?
      requires found.None? ==> |t| == 0 || ev.matchOne(t[|t| - 1], input, level).None?
      ensures forall i :: 0 <= i < |tried + t| - 1 ==> ev.matchOne((tried + t)[i], input, level).None?
      ensures found.None? ==> forall i :: 0 <= i < |tried + t| ==> ev.matchOne((tried + t)[i], input, level).None?
      ensures |t| > 0 ==> (tried + t)[|tried + t| - 1] == t[|t| - 1]
    {
      var all := tried + t;
      forall i | 0 <= i < |all| && (i < |all| - 1 || found.None?)
        ensures ev.matchOne(all[i], input, level).None?
      {
        if i >= |tried| {
          assert all[i] == t[i - |tried|];
        } else {
          assert all[i] == tried[i];
        }
      }
    }

    /**
     * A prefix of the evaluation order of visited groups holds signatures of
     * the groups with distinct names outside `prior`; all of it, once every
     * group was visited, covers every name outside `prior`.
     */
    lemma ScanShape(prior: set<string>, order: seq<string>, tried: seq<Finger>)
      requires Visits(order) <= socketGroup.Keys
      requires tried <= ScanSequence(socketGroup, order, prior)
      ensures forall i :: 0 <= i < |tried| ==> tried[i].name !in prior && InSomeGroup(tried[i])
      ensures DistinctNames(tried)
      ensures tried == ScanSequence(socketGroup, order, prior) && Visits(order) == socketGroup.Keys ==>
        forall g, f :: g in socketGroup && f in socketGroup[g] && f.name !in prior ==>
          exists i :: 0 <= i < |tried| && tried[i].name == f.name
    {
      ScanSequenceFacts(socketGroup, order, prior);
      var r := ScanSequence(socketGroup, order, prior);
      assert forall i :: 0 <= i < |tried| ==> tried[i] == r[i];
      if tried == r && Visits(order) == socketGroup.Keys {
        forall g, f | g in socketGroup && f in socketGroup[g] && f.name !in prior
          ensures exists i :: 0 <= i < |tried| && tried[i].name == f.name
        {
          NamesMember(tried, f.name);
        }
      }
    }

    /**
     * Of two signatures sharing a name in the only group, the later one is
     * never evaluated: when the earlier one does not match, the third stage
     * finds nothing, whatever the later one would match.
     */
    lemma ShadowedSignatureNeverMatches(a1: Finger, a2: Finger, input: Content, level: int,
                                        found: Option<(Framework, Option<Vuln>)>,
                                        order: seq<string>, tried: seq<Finger>)
      requires socketGroup == map["22" := [a1, a2]] && a1.name == a2.name
      requires ev.matchOne(a1, input, level).None?
      requires ScanOutcome({}, input, level, found, order, tried)
      ensures found.None?
    {
      OnlyKeyOrder(order, "22");
      if order == [] {
        assert tried == [];
      } else {
        ShadowedSequence(a1, a2);
      }
    }

    /** Adds the names of a signature collection to a set of names. */
    method AddNames(acc: set<string>, fs: seq<Finger>) returns (r: set<string>)
      ensures r == acc + Names(fs)
    {
      r := acc;
      var k := 0;
      while k < |fs|
        invariant 0 <= k <= |fs|
        invariant r == acc + Names(fs[..k])
      {
        NamesSnoc(fs, k);
        r := r + {fs[k].name};
        k := k + 1;
      }
      NamesAll(fs);
    }

    /**
     * The third stage over one group: evaluates, in order, each signature
     * whose name is not yet in `already`, recording the name, and stops at
     * the first match. `seen` is `already` with the evaluated names added.
     */
    method ScanGroup(fs: seq<Finger>, input: Content, level: int, already: set<string>)
      returns (found: Option<(Framework, Option<Vuln>)>, seen: set<string>, ghost tried: seq<Finger>)
      ensures seen == already + Names(tried)
      ensures tried <= FreshByName(fs, already)
      ensures found.None? ==> tried == FreshByName(fs, already)
      ensures forall i :: 0 <= i < |tried| - 1 ==> ev.matchOne(tried[i], input, level).None?
      ensures found.Some? <==> |tried| > 0 && ev.matchOne(tried[|tried| - 1], input, level).Some?
      ensures found.Some? ==> found == ev.matchOne(tried[|tried| - 1], input, level)
    {
      seen, tried := already, [];
      var j := 0;
      while j < |fs|
        invariant 0 <= j <= |fs|
        invariant seen == already + Names(tried)
        invariant tried + FreshByName(fs[j..], seen) == FreshByName(fs, already)
        invariant forall i :: 0 <= i < |tried| ==> ev.matchOne(tried[i], input, level).None?
      {
        var finger := fs[j];
        assert fs[j..][1..] == fs[j + 1..];
        if finger.name !in seen {
          NamesConcat(tried, [finger]);
          assert [finger][..0] == [];
          ghost var rest := FreshByName(fs[j + 1..], seen + {finger.name});
          assert tried + [finger] + rest == FreshByName(fs, already);
          seen := seen + {finger.name};
          tried := tried + [finger];
          found := ev.matchOne(finger, input, level);
          if found.Some? {
            assert (tried + rest)[..|tried|] == tried;
            return;
          }
        }
        j := j + 1;
      }
      assert tried + FreshByName(fs[j..], seen) == tried;
      found := None;
    }

    /** Passive HTTP identification: every HTTP signature against the response and certificate. */
    function HTTPMatch(data: seq<bv8>, cert: string): (r: (seq<Framework>, seq<Vuln>))
      reads this
      ensures r == ev.passiveMatch(Elems(httpFingers), Content(data, cert, true))
    {
      ev.passiveMatch(Elems(httpFingers), Content(data, cert, true))
    }

    /** The identities of a passive HTTP match without certificate text. */
    function Match(data: seq<bv8>): (r: seq<Framework>)
      reads this
      ensures r == HTTPMatch(data, "").0
    {
      HTTPMatch(data, "").0
    }

    /** Active HTTP identification over the active-eligible signatures only. */
    function HTTPActiveMatch(level: int): (r: (seq<Framework>, seq<Vuln>))
      reads this
      ensures r == ev.activeMatch(activeFingers, level)
    {
      ev.activeMatch(activeFingers, level)
    }
  }

  /**
   * Builds and compiles an engine from the loaded HTTP collection and the
   * loaded socket collection (`Failure` stands for a loading error), and
   * reports the first error. `portsError` is the error of loading the port
   * table when that load runs and fails, which is reported before anything
   * else.
   */
  method NewFingersEngine(ev: Evaluator, portsError: Option<string>,
                          loadedHTTP: Result<Option<seq<Finger>>, string>,
                          loadedSocket: Result<Option<seq<Finger>>, string>)
    returns (r: Result<FingersEngine, string>)
    ensures portsError.Some? ==> r == Failure(portsError.value)
    ensures portsError.None? && loadedHTTP.Failure? ==> r == Failure(loadedHTTP.error)
    ensures portsError.None? && loadedHTTP.Success? && loadedSocket.Failure? ==> r == Failure(loadedSocket.error)
    ensures r.Success? ==> fresh(r.value) && r.value.ev == ev
    ensures portsError.None? && loadedHTTP.Success? && loadedSocket.Success? ==>
      var hs := loadedHTTP.value;
      && (hs.None? ==> r == Failure(NilFingersError))
      && (hs.Some? && CompiledPrefix(ev, hs.value, false) < |hs.value| ==>
            r == Failure(ev.compile(hs.value[CompiledPrefix(ev, hs.value, false)], false).value))
    ensures
      && portsError.None? && loadedHTTP.Success? && loadedSocket.Success? && loadedHTTP.value.Some?
      && CompiledPrefix(ev, loadedHTTP.value.value, false) == |loadedHTTP.value.value|
      && loadedSocket.value.Some?
      ==>
      var ss := loadedSocket.value.value;
      CompiledPrefix(ev, ss, true) < |ss| ==> r == Failure(ev.compile(ss[CompiledPrefix(ev, ss, true)], true).value)
    ensures r.Success? <==>
      && portsError.None? && loadedHTTP.Success? && loadedSocket.Success? && loadedHTTP.value.Some?
      && CompiledPrefix(ev, loadedHTTP.value.value, false) == |loadedHTTP.value.value|
      && (loadedSocket.value.Some? ==>
            CompiledPrefix(ev, loadedSocket.value.value, true) == |loadedSocket.value.value|)
    ensures r.Success? ==>
      var e := r.value;
      var hs := loadedHTTP.value.value;
      && e.httpFingers == loadedHTTP.value && e.socketFingers == loadedSocket.value
      && e.activeFingers == Actives(hs) && e.ActiveSubset()
      && e.mmh3Fingers == Assign(map[], FaviconWrites(hs, Mmh3))
      && e.md5Fingers == Assign(map[], FaviconWrites(hs, Md5))
      && e.socketGroup == if loadedSocket.value.Some? then ev.groupByPort(loadedSocket.value.value) else map[]
  {
    if portsError.Some? {
      return Failure(portsError.value);
    }
    if loadedHTTP.Failure? {
      return Failure(loadedHTTP.error);
    }
    if loadedSocket.Failure? {
      return Failure(loadedSocket.error);
    }
    var engine := new FingersEngine(ev, loadedHTTP.value, loadedSocket.value);
    var err := engine.Compile();
    if err.Some? {
      return Failure(err.value);
    }
    assert loadedHTTP.value.value[..|loadedHTTP.value.value|] == loadedHTTP.value.value;
    return Success(engine);
  }

  /**
   * The active list is not reset by `Compile`: compiling an engine twice
   * lists an active HTTP signature twice.
   */
  method CompileTwiceDuplicates(ev: Evaluator, f: Finger) returns (e: FingersEngine)
    requires f.isActive && ev.compile(f, false).None?
    ensures e.activeFingers == [f, f]
  {
    e := new FingersEngine(ev, Some([f]), None);
    assert CompiledPrefix(ev, [f], false) == 1;
    assert [f][..1] == [f];
    assert Actives([f]) == [f];
    var _ := e.Compile();
    var _ := e.Compile();
  }

  /**
   * `Append` leaves the port groups as they were: an appended TCP signature
   * is in the socket collection but in no group, so `SocketMatch` never
   * evaluates it until the engine is compiled again.
   */
  method AppendLeavesSocketGroupsStale(e: FingersEngine, f: Finger) returns (err: Option<string>)
    requires f.protocol == TCPProtocol && e.ev.compile(f, false).None?
    requires !e.InSomeGroup(f)
    modifies e
    ensures err.None? && f in Elems(e.socketFingers) && !e.InSomeGroup(f)
  {
    assert CompiledPrefix(e.ev, [f], false) == 1;
    assert [f][..1] == [f];
    assert OfProtocol([f], TCPProtocol) == [f];
    err := e.Append([f]);
    ExtendElems(old(e.socketFingers), [f]);
  }
}
