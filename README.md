# fingers: alias registry and fingerprint engine, modelled in Dafny

This project models two stateful components of the `fingers` fingerprinting
library (Go) and proves properties of them.

* **The alias registry** (`alias/alias.go`). An `Aliases` registry holds
  canonical alias records keyed by lower-cased name (`Aliases`) and, per
  engine namespace, a table from normalised alternate names to canonical
  names (`Map`). `Compile` lower-cases each record's name, rebuilds its
  normalised key and blocked set, stores it and indexes its alternate
  names; later records overwrite earlier ones. `Find`, `FindAny` and
  `FindFramework` look records up; `Alias` offers `IsBlocked`,
  `FuzzyMatch` and `ToWFN`. `NewAliases` compiles the caller's records
  followed by the embedded ones.
* **The fingerprint engine** (`fingers/engine.go`). A `FingersEngine`
  holds the HTTP and socket signature collections, the active-eligible
  HTTP signatures, the port-grouped socket index and two favicon hash
  tables. `Compile` fills the derived parts, `Append` adds signatures by
  protocol, `SocketMatch` runs the three-stage socket fallback (port group,
  wildcard group `"0"`, every remaining signature once by name), and
  `Match`, `HTTPMatch`, `HTTPActiveMatch` delegate to the collection
  matchers. `Name()` is the constant `Fingers.EngineName`.

Files: `wrappers.dfy` (Option, Result), `common.dfy` (framework, vuln and
attribute records), `maps.dfy` (sequential map writes, "last write wins"),
`alias.dfy` (module `Alias`), `engine.dfy` (module `Fingers`).

Modelling choices:

* Records the source mutates in place are classes: `Alias.Alias` (`name`,
  `normalizedName`, `blocked`), `Alias.Aliases`, `Fingers.FingersEngine`.
  Signatures, rules and favicons are values.
* Go map iteration (engines of an `AliasMap`, namespaces in `FindAny`,
  port groups in `SocketMatch`) is an arbitrary choice (`:|`) from the keys
  not yet visited, so every proof holds for every iteration order.
* `resources.NormalizeString` is the registry's function-valued constant
  `normalize`; nothing is assumed about it. Signature compilation,
  single-signature and collection matching and `GroupByPort` are the
  fields of an `Evaluator` value the engine is built with.
* Nil slices are `Option<seq<Finger>>`; a nil `SocketGroup` map reads as
  empty, as a Go lookup in a nil map does.
* Compiling mutates each Go `Finger` in place; here compilation is an
  outcome only (`compile(f, isSocket)`), so the collections are unchanged
  by `Compile`.
* The behaviour of `Compile` on what it leaves half-built is stated, not
  hidden: on the first failing signature the active list keeps what was
  appended before it, and the active list is never reset, so compiling
  twice lists each active signature twice (`Fingers.CompileTwiceDuplicates`).
  `Append` never refreshes the port groups or the favicon tables
  (`Fingers.AppendLeavesSocketGroupsStale`).

## Model

| member | source | states |
|---|---|---|
| Alias.ToLower | alias/alias.go:42 | each character is mapped by `LowerChar` at its own position (ASCII letters lower-cased, every other character kept), so the length is kept and no ASCII upper-case letter remains |
| Alias.ToLowerIdempotent | alias/alias.go:42 | lower-casing an already lower-cased name changes nothing, so a compiled record's name is its own key |
| Alias.Alias.constructor | alias/alias.go:93-104 | a record as built by a caller or the decoder: declared fields set, not yet compiled (empty normalised key and blocked set) |
| Alias.Alias.IsBlocked | alias/alias.go:106-108 | for a compiled record, an engine is blocked exactly when it appears in the record's `Block` list |
| Alias.Alias.FuzzyMatch | alias/alias.go:110-112 | for a compiled record, it matches `s` exactly when the name and `s` normalise to the same string |
| Alias.Alias.ToWFN | alias/alias.go:114-123 | part is "a" and vendor, product, version, update and edition are copied unchanged |
| Alias.Registrations | alias/alias.go:41-45 | a batch writes, in order, each record under its lower-cased name; one write per record |
| Alias.RegistrationsConcat | alias/alias.go:21 | the writes of `origin + embedded` are those of `origin` followed by those of `embedded` |
| Alias.AddEntryAt | alias/alias.go:51-58 | adding one record sets every key it declares in an engine to its canonical name and leaves every other key of that engine as it was |
| Alias.AddEntryValues | alias/alias.go:45-56 | after adding one record, every index value is the record's canonical name or the old value |
| Alias.IndexLastWriter | alias/alias.go:51-58 | after a batch, `Map[ns][k]` is the canonical name of the last record that declares `k` for `ns` |
| Alias.IndexUntouched | alias/alias.go:51-58 | a key declared by no record of the batch keeps its presence and value |
| Alias.IndexEngines | alias/alias.go:51-54 | after a batch, the namespaces of the index are the old ones plus every namespace some record declares |
| Alias.IndexValues | alias/alias.go:45-56 | every index value after a batch was there before or is the canonical name of a record of the batch |
| Alias.Aliases.constructor | alias/alias.go:16-19 | an empty registry, which satisfies the registry invariant |
| Alias.Aliases.Find | alias/alias.go:64-76 | (record, true) iff the key is indexed, its canonical name has a record and the engine is not blocked; (record, false) when blocked; (null, false) otherwise; under the invariant, found exactly when indexed, and blocked exactly when the engine is in the record's `Block` list |
| Alias.Aliases.FindAny | alias/alias.go:78-87 | returns (ns, a, true) only for a namespace with `Find(ns, normalize(s)) == (a, true)`, and ("", null, false) exactly when no namespace yields an unblocked match, for every namespace order |
| Alias.Aliases.FindFramework | alias/alias.go:89-91 | the lookup of the framework's normalised name in the namespace it came from |
| Alias.TargetsFacts | alias/alias.go:55-57 | an engine's contribution to the index has as keys exactly the normalised alternate names, each mapped to the canonical name |
| Alias.WriteTargets | alias/alias.go:55-57 | writing the normalised alternate names of one engine into its table adds each of them with the canonical name, overriding earlier entries |
| Alias.BlockedSet | alias/alias.go:44-48 | the blocked set holds exactly the engines of the `Block` list |
| Alias.Aliases.AddToIndex | alias/alias.go:51-58 | indexing one record, engine by engine in any order, yields the one-record index update |
| Alias.Aliases.CompileRecord | alias/alias.go:41-58 | one record: name lower-cased, normalised key and blocked set rebuilt from scratch, stored under its name, indexed; the registry invariant is kept |
| Alias.Aliases.CompileAt | alias/alias.go:41-58 | one loop step: the record is compiled and stored, the records before it stay compiled under their names, and the invariant is kept |
| Alias.Aliases.Compile | alias/alias.go:40-62 | never fails; every record of the batch is compiled; `Aliases` and `Map` are the old maps with the batch's writes applied in order (last write wins); the registry invariant (every index value names a record) is kept |
| Alias.Aliases.AppendAliases | alias/alias.go:33-38 | has exactly the effect of `Compile` on the same records |
| Alias.Build | alias/alias.go:16-22 | a fresh registry with the given normaliser whose maps are the compilation of the batch from empty, with every record of the batch compiled; the registry invariant holds |
| Alias.NewAliases | alias/alias.go:10-26 | a decoding error is returned as is; otherwise the registry is the compilation of the caller's records followed by the embedded ones, every record of both lists ends compiled (name lower-cased, normalised key and blocked set rebuilt), and an embedded record wins every canonical-name collision |
| Maps.AssignKeys | alias/alias.go:45 | sequential writes keep the old keys and add exactly the written keys |
| Maps.AssignConcat | alias/alias.go:21 | writing `a + b` is writing `a` and then `b` |
| Maps.AssignLastWins | alias/alias.go:45 | the last write of a key decides its value |
| Maps.AssignUntouched | alias/alias.go:45 | a key never written keeps its presence and value |
| Maps.LaterLayerWins | alias/alias.go:21 | a key written by the later layer has that layer's value whatever the earlier layer and the starting map were |
| Maps.LaterLayerWinsAll | alias/alias.go:21 | every key the later layer writes has that layer's value |
| Maps.AssignUniform | fingers/engine.go:93-98 | a key whose every write carries the same value ends up with that value |
| Fingers.CompiledPrefix | fingers/engine.go:79-83 | the returned position is within the collection, and the signature at it, if any, does not compile |
| Fingers.CompiledPrefixFacts | fingers/engine.go:79-83 | every signature before that position compiles, so the position is where a fail-fast loop stops |
| Fingers.ActivesMembers | fingers/engine.go:84-86 | the active sub-list holds exactly the active signatures |
| Fingers.OfProtocolMembers | fingers/engine.go:121-128 | the protocol sub-list holds exactly the signatures of that protocol |
| Fingers.RuleWritesFacts | fingers/engine.go:91-99 | a signature's rules write exactly the hashes their favicons declare, each to the signature's name |
| Fingers.FaviconLastWriter | fingers/engine.go:90-101 | after indexing, a hash maps to the name of the last signature (in signature-then-rule order) declaring it |
| Fingers.FaviconUntouched | fingers/engine.go:90-101 | a hash no signature declares keeps its presence and old value |
| Fingers.FileAllSpec | fingers/engine.go:116-129 | filing appends the http signatures to the HTTP collection, the active ones among them to the active list and the tcp signatures to the socket collection; any other protocol is dropped; nil stays nil when nothing is added |
| Fingers.FiledCount | fingers/engine.go:70-72 | filing grows the total signature count by the number of http and tcp signatures filed |
| Fingers.ActivesPrefixSubset | fingers/engine.go:79-87 | appending the active signatures of a prefix of the HTTP collection keeps the active list within the active HTTP signatures |
| Fingers.AppendKeepsActiveSubset | fingers/engine.go:121-125 | filing keeps the active list within the active signatures of the HTTP collection |
| Fingers.DistinctConcat | fingers/engine.go:157-163 | names tried in one group, all outside the names tried before, keep the tried names distinct |
| Fingers.FingersEngine.constructor | fingers/engine.go:41-46 | the engine before compilation: the loaded collections, an empty active list, no port groups, empty favicon tables; the active-list invariant holds |
| Fingers.FingersEngine.Len | fingers/engine.go:70-72 | the number of HTTP signatures plus the number of socket signatures |
| Fingers.FingersEngine.CompileHTTP | fingers/engine.go:79-87 | compiles until the first failure, returns that error, and appends the active signatures before it to the active list; the active-list invariant is kept |
| Fingers.WriteHashes | fingers/engine.go:93-98 | writing a hash list in order is the sequential write of each hash to the signature name |
| Fingers.IndexRuleStep | fingers/engine.go:91-99 | indexing the rules up to one more is indexing the earlier rules and then that rule's hashes, if it has a favicon |
| Fingers.FingersEngine.IndexRule | fingers/engine.go:92-99 | a rule with a favicon writes its mmh3 hashes and md5 hashes to the signature name; a rule without one writes nothing |
| Fingers.FingersEngine.IndexFinger | fingers/engine.go:91-100 | one signature's rules are indexed in order |
| Fingers.FingersEngine.IndexFavicons | fingers/engine.go:90-101 | each table is the old table with every signature's hash writes applied in order |
| Fingers.FingersEngine.CompileSocket | fingers/engine.go:104-109 | the error of the first socket signature that does not compile (as a socket signature), or none |
| Fingers.FingersEngine.Compile | fingers/engine.go:74-113 | with no HTTP collection, the error "fingers is nil" and nothing changed; otherwise fail-fast on HTTP then socket signatures, the active list grows by the active compiled signatures, the favicon tables are the old tables written over by every HTTP signature's hashes in order (last write wins) only when every HTTP signature compiled, the port groups are set only when every socket signature compiled; the active-list invariant is kept |
| Fingers.FingersEngine.Append | fingers/engine.go:115-131 | compiles each signature as HTTP, fail-fast; files the compiled ones by protocol; `Len` grows by what was filed; port groups and favicon tables are unchanged; the active-list invariant is kept |
| Fingers.FingersEngine.FileCompiled | fingers/engine.go:116-129 | stops exactly at the first signature that does not compile, returns its error, and files every signature before it in order |
| Fingers.FingersEngine.File | fingers/engine.go:121-128 | one signature filed: http to the HTTP collection (and the active list when active), tcp to the socket collection, anything else nowhere |
| Fingers.FingersEngine.SocketMatch | fingers/engine.go:133-175 | a non-empty port-group match answers first (stage 1 only when a port is given); else a non-empty wildcard match; otherwise the third-stage outcome after the names of both groups: for the order in which the groups were visited, the signatures evaluated are, group by group, the first occurrence of each name not yet tried, the answer is the first of them that matches, the callback is invoked once exactly on such a hit, and (nil, nil) comes only after all of them failed; a nil framework always comes with a nil vuln and no callback |
| Fingers.FingersEngine.ScanGroups | fingers/engine.go:157-174 | for a visiting order of the groups (no group twice, every group when nothing matched), the evaluated signatures are a prefix of that order's `ScanSequence` (each group's first occurrences of names not yet tried), all of it when nothing matched; they come from the groups with distinct names outside the earlier stages'; all but the last failed; a hit is exactly the last one's match; with no hit every name outside the earlier stages was evaluated |
| Fingers.FingersEngine.ExtendScan | fingers/engine.go:157-172 | appending one group's evaluated signatures keeps all but the last unmatched, and all of them when the group had no hit |
| Fingers.FingersEngine.AddNames | fingers/engine.go:144-146 | the already-tried set grows by the names of a group |
| Fingers.FingersEngine.ScanGroup | fingers/engine.go:158-172 | within one group: the evaluated signatures are a prefix of `FreshByName` (the first occurrence, in group order, of each name not yet tried), all of it when nothing matched; the tried names grow by theirs; all but the last failed and a hit is exactly the last one's match |
| Fingers.FreshByNameFacts | fingers/engine.go:158-163 | the first-occurrence signatures of a group come from the group, carry distinct names outside those already tried, and together with those names cover every name of the group |
| Fingers.FreshPrefix | fingers/engine.go:158-163 | the same holds for every prefix of them, and the whole list covers the group |
| Fingers.ScanSequenceSnoc | fingers/engine.go:157-172 | visiting one more group appends its first-occurrence signatures after the names tried so far, so a prefix of them extends the evaluation order |
| Fingers.ScanSequenceFacts | fingers/engine.go:157-172 | the evaluation order of the visited groups holds only their signatures, with distinct names outside the earlier stages', and covers every name of every visited group |
| Fingers.FingersEngine.ScanShape | fingers/engine.go:157-174 | a prefix of the evaluation order has signatures of the groups with distinct names outside the earlier stages'; the whole order, once every group was visited, covers every such name |
| Fingers.FingersEngine.ScanMiss | fingers/engine.go:157-172 | a group scanned without a hit gives the next state between groups: one more group visited, its first-occurrence signatures appended, none matched |
| Fingers.FingersEngine.ScanHit | fingers/engine.go:157-172 | a group scan that ends in a hit gives the third-stage outcome with that hit |
| Fingers.FingersEngine.ScanDone | fingers/engine.go:157-174 | with every group visited and nothing matched, the third stage ends without a match after the whole evaluation order |
| Fingers.ShadowedSequence | fingers/engine.go:158-163 | in a group whose second signature shares the first one's name, the evaluation order holds the first signature only |
| Fingers.FingersEngine.ShadowedSignatureNeverMatches | fingers/engine.go:158-163 | of two signatures with the same name in a group, only the first is evaluated: when it fails, the scan finds nothing even if the second would match |
| Fingers.FingersEngine.HTTPMatch | fingers/engine.go:182-187 | delegates to the passive match of the whole HTTP collection on HTTP content with the certificate |
| Fingers.FingersEngine.Match | fingers/engine.go:177-180 | the identities of the passive HTTP match without certificate |
| Fingers.FingersEngine.HTTPActiveMatch | fingers/engine.go:189-191 | delegates to the active match of the active list only |
| Fingers.NewFingersEngine | fingers/engine.go:26-56 | a port-table loading error is returned first, then a collection loading error; a nil HTTP collection gives the error "fingers is nil"; the engine exists exactly when there is no loading error, the HTTP collection is not nil, and every HTTP signature and every socket signature compiles; then its active list is the active HTTP signatures, its favicon tables are built from empty by last write wins, and its port groups come from the socket collection |
| Fingers.CompileTwiceDuplicates | fingers/engine.go:79-87 | the active list is not reset: compiling twice lists an active signature twice |
| Fingers.AppendLeavesSocketGroupsStale | fingers/engine.go:115-131 | an appended tcp signature is in the socket collection but in no port group, so the socket fallback never evaluates it |

## Left out

- YAML decoding of the embedded aliases (alias/alias.go:12): `NewAliases` takes the decoded records, or the decoding error, as a parameter.
- `NewFingersEngineWithCustom` (fingers/engine.go:16-24): it only overwrites global resource variables before calling `NewFingersEngine`.
- `LoadPorts` and `LoadFingers` inside `NewFingersEngine` (fingers/engine.go:29-39, 46): they load global resources. The error of `LoadPorts` is the parameter `portsError` of `Fingers.NewFingersEngine` (`None` also when the global condition on line 29 skips the load), and the results of `LoadFingers` (collections or errors) are parameters too; the port table itself is not modelled.
- Signature compilation, regular expressions and rule evaluation, `NewContent`, `PassiveMatch`, `ActiveMatch`, a collection's `Match` and `GroupByPort`: code not part of this model, represented by the `Evaluator` functions; how `GroupByPort` distributes signatures is not assumed.
- Sender and callback side effects: a group match or an HTTP match may probe the network and call the callback inside the matcher; the model records only the callback call of the third `SocketMatch` stage and whether a callback was given.
- Favicon hash computation: hashes are opaque strings.
- `Frameworks.One()` and `Vulns.One()` are not part of this model: stages 1 and 2 of `SocketMatch` take the first element (`Fingers.First`) of what the group matcher returns.
- `UDPProtocol` is declared (fingers/engine.go:13) but no engine operation files or matches on it; `Append` drops udp signatures like any other unknown tag.
- Concurrency: none of these types is synchronised in the source either.
- `Alias.ToLower`: lower-cases ASCII letters only; Unicode case mapping of `strings.ToLower` is not modelled.
- `Alias.Aliases.Compile`: requires the registry invariant `Valid()`, which every registry built by the constructor or `NewAliases` has; a registry whose public fields are assembled by hand is not covered.
- Direct writes by callers to the public fields (`Alias.Name`, `Alias.AliasMap`, `Alias.Block`, the engine's collections): record attributes, alternate names and block lists are constants here; `name` is a field, but a caller that rewrites the name of a stored record breaks `Alias.Aliases.Valid()`, after which `Compile` and `AppendAliases` can no longer be called in the model, while the Go `Compile` would still run.
- `Framework` keeps only a name and the engine it came from; other framework and vuln fields are not read by the registry or the engine.
- `Fingers.FingersEngine.Compile`: Go compiles each signature in place and the engine keeps the compiled objects; the model keeps compilation as an outcome and does not model the compiled state of a signature.
- The favicon engine object is flattened into the two tables `mmh3Fingers` and `md5Fingers` of the engine.
