/** Where the command line keeps sign-ins: one secret per provider in the
    operating system's credential store, and an index file naming the providers.
    Every access to the store and to the file may fail; an oracle says which do. */
module Credentials {
  import opened Wrappers
  import opened Ordering

  // ----- Data -----

  datatype Entry = OAuth(refresh: string, access: string, expires: int) | ApiKey(key: string)

  /** What a stored secret decodes to. */
  datatype Secret = Encoded(entry: Entry) | Undecodable

  datatype Index = Index(version: int, storage: string, providers: seq<string>, scope: Option<string>)

  /** What is at a path: nothing, an index, a clear-text store, or anything else. */
  datatype File =
    | Absent
    | IndexJson(index: Index)
    | ClearText(entries: map<string, Entry>, ownerOnly: bool)
    | Other

  /** A configuration root: where its file is and the service its secrets are under. */
  datatype Root = Root(path: string, service: string)

  /** The secrets held under one service, by provider. The program files them by a
      hash of the provider's name, which is taken to be injective. */
  type Vault = map<string, Secret>

  datatype World = World(vaults: map<string, Vault>, files: map<string, File>)

  const SHARED_SERVICE := "com.agiworkforce.cli.auth"
  const INDEX_VERSION := 2
  const INDEX_STORAGE := "os-keyring"

  datatype SaveError = SetFailed(provider: string) | DeleteFailed(provider: string) | WriteFailed

  datatype LoadError =
    | FileUnreadable
    | FileExposed
    | OtherRoot
    | StoreDenied(provider: string)
    | AdoptionFailed(provider: string)
    | NotHeld(provider: string)
    | NotDecodable(provider: string)
    | IndexNotWritten
    | NotSaved(error: SaveError)

  /** How one access goes. A failed change may or may not have taken effect. */
  datatype Fault = Works | FailsBefore | FailsAfter

  datatype Access =
    | ReadFile | ReadPrevious
    | GetOwn(i: nat) | GetShared(i: nat) | Adopt(i: nat) | Get(i: nat)
    | Set(provider: string) | Delete(provider: string)
    | WriteIndex | WriteMigrated | WriteClear

  type Oracle = Access -> Fault

  // ----- Reading the records -----

  function VaultAt(w: World, service: string): Vault {
    if service in w.vaults then w.vaults[service] else map[]
  }

  function WithVault(w: World, service: string, vault: Vault): World {
    w.(vaults := w.vaults[service := vault])
  }

  function FileAt(w: World, path: string): File {
    if path in w.files then w.files[path] else Absent
  }

  predicate ValidIndex(index: Index) {
    && (if index.version == 1 then index.scope.None?
        else index.version == INDEX_VERSION && index.scope.Some? && index.scope.value != "")
    && index.storage == INDEX_STORAGE
  }

  function ParseIndex(file: File): Option<Index> {
    if file.IndexJson? && ValidIndex(file.index) then Some(file.index) else None
  }

  function Elements(providers: seq<string>): set<string> {
    set p | p in providers
  }

  /** The providers an index file names; none when it is not a valid index. */
  function Named(file: File): set<string> {
    match ParseIndex(file)
    case Some(index) => Elements(index.providers)
    case None => {}
  }

  predicate Legacy(file: File) {
    ParseIndex(file).Some? && ParseIndex(file).value.version == 1
  }

  // ----- Saving -----

  function SetAll(held: Vault, entries: map<string, Entry>, order: seq<string>, o: Oracle): (Vault, Option<string>)
    requires forall p <- order :: p in entries
    decreases |order|
  {
    if order == [] then (held, None)
    else
      var p := order[0];
      var written := held[p := Encoded(entries[p])];
      match o(Set(p))
      case Works => SetAll(written, entries, order[1..], o)
      case FailsBefore => (held, Some(p))
      case FailsAfter => (written, Some(p))
  }

  function DeleteAll(held: Vault, order: seq<string>, o: Oracle): (Vault, Option<string>)
    decreases |order|
  {
    if order == [] then (held, None)
    else
      var p := order[0];
      var without := held - {p};
      match o(Delete(p))
      case Works => DeleteAll(without, order[1..], o)
      case FailsBefore => (held, Some(p))
      case FailsAfter => (without, Some(p))
  }

  function NewIndex(service: string, providers: set<string>): Index {
    Index(INDEX_VERSION, INDEX_STORAGE, Sorted(providers), Some(service))
  }

  function Previous(file: File, o: Oracle): set<string> {
    if o(ReadPrevious).Works? then Named(file) else {}
  }

  /** What a save does to the vault: secrets are set, then dropped ones deleted. */
  function SaveSecrets(held: Vault, previous: set<string>, entries: map<string, Entry>, o: Oracle)
    : (Vault, Option<SaveError>)
  {
    var (after, notSet) := SetAll(held, entries, Sorted(entries.Keys), o);
    if notSet.Some? then (after, Some(SetFailed(notSet.value)))
    else
      var (kept, notDeleted) := DeleteAll(after, Sorted(previous - entries.Keys), o);
      (kept, if notDeleted.Some? then Some(DeleteFailed(notDeleted.value)) else None)
  }

  /** The index is replaced last. */
  function SaveToKeyring(w: World, root: Root, entries: map<string, Entry>, o: Oracle): (World, Option<SaveError>) {
    var (held, failed) := SaveSecrets(VaultAt(w, root.service), Previous(FileAt(w, root.path), o), entries, o);
    var w' := WithVault(w, root.service, held);
    if failed.Some? then (w', failed)
    else if !o(WriteIndex).Works? then (w', Some(WriteFailed))
    else (w'.(files := w.files[root.path := IndexJson(NewIndex(root.service, entries.Keys))]), None)
  }

  function Save(w: World, root: Root, usesKeychain: bool, entries: map<string, Entry>, o: Oracle)
    : (World, Option<SaveError>)
  {
    if usesKeychain then SaveToKeyring(w, root, entries, o)
    else if !o(WriteClear).Works? then (w, Some(WriteFailed))
    else (w.(files := w.files[root.path := ClearText(entries, true)]), None)
  }

  // ----- Loading -----

  /** A root takes the shared secrets its index names, unless it holds its own. */
  function AdoptFrom(held: Vault, shared: Vault, providers: seq<string>, i: nat, o: Oracle): (Vault, Option<LoadError>)
    requires i <= |providers|
    decreases |providers| - i
  {
    if i == |providers| then (held, None)
    else
      var p := providers[i];
      if !o(GetOwn(i)).Works? then (held, Some(StoreDenied(p)))
      else if p in held then AdoptFrom(held, shared, providers, i + 1, o)
      else if !o(GetShared(i)).Works? then (held, Some(StoreDenied(p)))
      else if p !in shared then AdoptFrom(held, shared, providers, i + 1, o)
      else
        var adopted := held[p := shared[p]];
        match o(Adopt(i))
        case Works => AdoptFrom(adopted, shared, providers, i + 1, o)
        case FailsBefore => (held, Some(AdoptionFailed(p)))
        case FailsAfter => (adopted, Some(AdoptionFailed(p)))
  }

  function LoadFrom(held: Vault, providers: seq<string>, i: nat, missingSignsOut: bool,
                    entries: map<string, Entry>, o: Oracle): Result<map<string, Entry>, LoadError>
    requires i <= |providers|
    decreases |providers| - i
  {
    if i == |providers| then Ok(entries)
    else
      var p := providers[i];
      if !o(Get(i)).Works? then Err(StoreDenied(p))
      else if p !in held then
        (if missingSignsOut then LoadFrom(held, providers, i + 1, missingSignsOut, entries, o) else Err(NotHeld(p)))
      else match held[p]
        case Undecodable => Err(NotDecodable(p))
        case Encoded(entry) => LoadFrom(held, providers, i + 1, missingSignsOut, entries[p := entry], o)
  }

  predicate IsLegacy(index: Index) {
    index.version == 1 && index.scope.None?
  }

  /** The vault a load of this index reads from, or why there is none. */
  function AdoptFor(held: Vault, shared: Vault, index: Index, o: Oracle): (Vault, Option<LoadError>) {
    if IsLegacy(index) then AdoptFrom(held, shared, index.providers, 0, o) else (held, None)
  }

  function LoadForRoot(w: World, root: Root, index: Index, missingSignsOut: bool, o: Oracle)
    : (World, Result<map<string, Entry>, LoadError>)
  {
    if !IsLegacy(index) && index.scope != Some(root.service) then (w, Err(OtherRoot))
    else
      var (held, notAdopted) := AdoptFor(VaultAt(w, root.service), VaultAt(w, SHARED_SERVICE), index, o);
      var w' := if IsLegacy(index) then WithVault(w, root.service, held) else w;
      if notAdopted.Some? then (w', Err(notAdopted.value))
      else
        var loaded := LoadFrom(held, index.providers, 0, missingSignsOut, map[], o);
        if loaded.Err? || !IsLegacy(index) then (w', loaded)
        else if !o(WriteMigrated).Works? then (w', Err(IndexNotWritten))
        else
          var migrated := index.(version := INDEX_VERSION, scope := Some(root.service));
          (w'.(files := w.files[root.path := IndexJson(migrated)]), loaded)
  }

  function Load(w: World, root: Root, usesKeychain: bool, o: Oracle): (World, Result<map<string, Entry>, LoadError>) {
    var file := FileAt(w, root.path);
    if file.Absent? then (w, Ok(map[]))
    else if !o(ReadFile).Works? then (w, Err(FileUnreadable))
    else match ParseIndex(file)
      case Some(index) =>
        var (w', loaded) := LoadForRoot(w, root, index, !usesKeychain, o);
        if usesKeychain || loaded.Err? then (w', loaded)
        else
          var (w'', notSaved) := Save(w', root, false, loaded.value, o);
          (w'', if notSaved.Some? then Err(NotSaved(notSaved.value)) else loaded)
      case None =>
        if !file.ClearText? then (w, Err(FileUnreadable))
        else if !file.ownerOnly then (w, Err(FileExposed))
        else if !usesKeychain then (w, Ok(file.entries))
        else
          var (w', notSaved) := SaveToKeyring(w, root, file.entries, o);
          (w', if notSaved.Some? then Err(NotSaved(notSaved.value)) else Ok(file.entries))
  }

  // ----- What a save does to the vault -----

  ghost predicate Holds(held: Vault, entries: map<string, Entry>) {
    forall p <- entries.Keys :: p in held && held[p] == Encoded(entries[p])
  }

  lemma {:induction false} SetAllSets(held: Vault, entries: map<string, Entry>, order: seq<string>, o: Oracle)
    requires forall p <- order :: p in entries
    ensures var (after, failed) := SetAll(held, entries, order, o);
      && held.Keys <= after.Keys <= held.Keys + Elements(order)
      && (forall p <- held.Keys | p !in order :: after[p] == held[p])
      && (failed.None? ==> forall p <- order :: p in after && after[p] == Encoded(entries[p]))
      && ((forall p <- order :: o(Set(p)).Works?) ==> failed.None?)
    decreases |order|
  {
    if order == [] {
    } else {
      SetAllSets(held[order[0] := Encoded(entries[order[0]])], entries, order[1..], o);
      assert forall p :: p in order <==> p == order[0] || p in order[1..];
    }
  }

  lemma {:induction false} DeleteAllDeletes(held: Vault, order: seq<string>, o: Oracle)
    ensures var (after, failed) := DeleteAll(held, order, o);
      && held.Keys - Elements(order) <= after.Keys <= held.Keys
      && (forall p <- after.Keys :: after[p] == held[p])
      && (failed.None? ==> after.Keys !! Elements(order))
      && ((forall p <- order :: o(Delete(p)).Works?) ==> failed.None?)
    decreases |order|
  {
    if order == [] {
    } else {
      DeleteAllDeletes(held - {order[0]}, order[1..], o);
      assert forall p :: p in order <==> p == order[0] || p in order[1..];
    }
  }

  /** A save loses no secret but dropped ones, and while it is still setting not
      even those; it changes no provider that is neither saved nor dropped. */
  lemma SaveSecretsKeeps(held: Vault, previous: set<string>, entries: map<string, Entry>, o: Oracle)
    ensures var (after, failed) := SaveSecrets(held, previous, entries, o);
      && held.Keys - (previous - entries.Keys) <= after.Keys <= held.Keys + entries.Keys
      && (forall p <- held.Keys - previous - entries.Keys :: after[p] == held[p])
      && (failed.Some? && failed.value.SetFailed? ==> held.Keys <= after.Keys)
  {
    var order, dropped := Sorted(entries.Keys), Sorted(previous - entries.Keys);
    assert Elements(order) == entries.Keys && Elements(dropped) == previous - entries.Keys;
    SetAllSets(held, entries, order, o);
    DeleteAllDeletes(SetAll(held, entries, order, o).0, dropped, o);
  }

  /** A finished save holds what was saved and nothing of what was dropped. */
  lemma SaveSecretsFinishes(held: Vault, previous: set<string>, entries: map<string, Entry>, o: Oracle)
    ensures var (after, failed) := SaveSecrets(held, previous, entries, o);
      && (failed.None? ==> Holds(after, entries) && after.Keys !! (previous - entries.Keys))
      && ((forall p :: o(Set(p)).Works? && o(Delete(p)).Works?) ==> failed.None?)
  {
    var order, dropped := Sorted(entries.Keys), Sorted(previous - entries.Keys);
    var (set_, notSet) := SetAll(held, entries, order, o);
    var (kept, notDeleted) := DeleteAll(set_, dropped, o);
    assert Elements(order) == entries.Keys && Elements(dropped) == previous - entries.Keys;
    SetAllSets(held, entries, order, o);
    DeleteAllDeletes(set_, dropped, o);
    if notSet.None? {
      forall p <- entries.Keys ensures p in kept && kept[p] == Encoded(entries[p]) {
        assert p in order && p in set_ && p !in Elements(dropped);
      }
    }
  }

  // ----- Saving and loading -----

  lemma {:induction false} LoadsEach(held: Vault, providers: seq<string>, i: nat, missingSignsOut: bool,
                                      entries: map<string, Entry>, o: Oracle)
    requires i <= |providers| && Holds(held, entries)
    ensures var r := LoadFrom(held, providers, i, missingSignsOut, entries, o);
      && (r.Ok? ==>
            && Holds(held, r.value)
            && (forall p :: p in r.value <==> p in entries || (p in providers[i..] && p in held))
            && (!missingSignsOut ==> forall p <- providers[i..] :: p in r.value))
      && ((forall j :: o(Get(j)).Works?) && (forall p <- providers :: p in held && held[p].Encoded?) ==> r.Ok?)
      && ((forall p <- providers :: p in held && held[p].Encoded?) ==> r.Ok? || r.error.StoreDenied?)
    decreases |providers| - i
  {
    if i >= |providers| {
    } else {
      var p := providers[i];
      assert providers[i..] == [p] + providers[i + 1..];
      if p in held && held[p].Encoded? {
        LoadsEach(held, providers, i + 1, missingSignsOut, entries[p := held[p].entry], o);
      } else if p !in held && missingSignsOut {
        LoadsEach(held, providers, i + 1, missingSignsOut, entries, o);
      }
    }
  }

  /** A strict load of an index returns every provider it names, each as the vault
      holds it, or an error: never a part of them. */
  lemma StrictLoadIsComplete(w: World, root: Root, index: Index, o: Oracle)
    ensures var (w', r) := LoadForRoot(w, root, index, false, o);
      r.Ok? ==> r.value.Keys == Elements(index.providers) && Holds(VaultAt(w', root.service), r.value)
  {
    var held := AdoptFor(VaultAt(w, root.service), VaultAt(w, SHARED_SERVICE), index, o).0;
    LoadsEach(held, index.providers, 0, false, map[], o);
    assert index.providers[0..] == index.providers;
  }

  /** A lenient load returns the providers still held: absence alone signs out. */
  lemma LenientLoadSignsOutAbsent(w: World, root: Root, index: Index, o: Oracle)
    ensures var (w', r) := LoadForRoot(w, root, index, true, o);
      r.Ok? ==>
        && r.value.Keys == Elements(index.providers) * VaultAt(w', root.service).Keys
        && Holds(VaultAt(w', root.service), r.value)
  {
    var held := AdoptFor(VaultAt(w, root.service), VaultAt(w, SHARED_SERVICE), index, o).0;
    LoadsEach(held, index.providers, 0, true, map[], o);
    assert index.providers[0..] == index.providers;
  }

  lemma LoadsExactly(held: Vault, entries: map<string, Entry>, o: Oracle)
    requires Holds(held, entries)
    ensures var r := LoadFrom(held, Sorted(entries.Keys), 0, false, map[], o);
      && (r == Ok(entries) || (r.Err? && r.error.StoreDenied?))
      && ((forall i :: o(Get(i)).Works?) ==> r == Ok(entries))
  {
    var order := Sorted(entries.Keys);
    var r := LoadFrom(held, order, 0, false, map[], o);
    LoadsEach(held, order, 0, false, map[], o);
    assert order[0..] == order;
    if r.Ok? {
      assert r.value.Keys == entries.Keys;
      assert r.value == entries;
    }
  }

  /** After a successful save the next load changes nothing and returns exactly
      what was saved, unless the file or the store cannot be read. */
  lemma LoadReturnsWhatWasSaved(w: World, root: Root, entries: map<string, Entry>, o: Oracle, o': Oracle)
    requires root.service != "" && SaveToKeyring(w, root, entries, o).1.None?
    ensures var saved := SaveToKeyring(w, root, entries, o).0;
      var (after, r) := Load(saved, root, true, o');
      && after == saved
      && (r == Ok(entries) || (r.Err? && (r.error.FileUnreadable? || r.error.StoreDenied?)))
      && (o'(ReadFile).Works? && (forall i :: o'(Get(i)).Works?) ==> r == Ok(entries))
  {
    SaveSecretsFinishes(VaultAt(w, root.service), Previous(FileAt(w, root.path), o), entries, o);
    var saved := SaveToKeyring(w, root, entries, o).0;
    assert ParseIndex(FileAt(saved, root.path)) == Some(NewIndex(root.service, entries.Keys));
    LoadsExactly(VaultAt(saved, root.service), entries, o');
  }

  // ----- What a failed save leaves -----

  /** Every provider the index names has a secret. */
  ghost predicate PromiseKept(w: World, root: Root) {
    Named(FileAt(w, root.path)) <= VaultAt(w, root.service).Keys
  }

  /** A save that fails before it drops anything leaves the old index in place and
      everything it names held. */
  lemma FailureWhileSettingIsHarmless(w: World, root: Root, entries: map<string, Entry>, o: Oracle)
    requires PromiseKept(w, root)
    requires SaveToKeyring(w, root, entries, o).1.Some? && SaveToKeyring(w, root, entries, o).1.value.SetFailed?
    ensures var w' := SaveToKeyring(w, root, entries, o).0;
      FileAt(w', root.path) == FileAt(w, root.path) && PromiseKept(w', root)
  {
    SaveSecretsKeeps(VaultAt(w, root.service), Previous(FileAt(w, root.path), o), entries, o);
  }

  /** If this save fails, the index still names only held secrets. */
  ghost predicate Harmless(w: World, root: Root, entries: map<string, Entry>, o: Oracle) {
    SaveToKeyring(w, root, entries, o).1.Some? ==> PromiseKept(SaveToKeyring(w, root, entries, o).0, root)
  }

  /** The store works throughout, and then the index cannot be written. */
  ghost function OnlyWriteFails(): (o: Oracle)
    ensures o(WriteIndex) == FailsBefore
    ensures forall access | access != WriteIndex :: o(access).Works?
  {
    access => if access == WriteIndex then FailsBefore else Works
  }

  /** Every failure is harmless exactly when the save drops no provider. Otherwise
      the secret can be gone while the old index still names it. */
  lemma FailuresAreHarmlessExactly(w: World, root: Root, entries: map<string, Entry>)
    requires PromiseKept(w, root)
    ensures (forall o :: Harmless(w, root, entries, o)) <==> Named(FileAt(w, root.path)) <= entries.Keys
  {
    var held, named := VaultAt(w, root.service), Named(FileAt(w, root.path));
    if named <= entries.Keys {
      forall o ensures Harmless(w, root, entries, o) {
        SaveSecretsKeeps(held, Previous(FileAt(w, root.path), o), entries, o);
      }
    } else {
      var o := OnlyWriteFails();
      SaveSecretsFinishes(held, named, entries, o);
      assert !Harmless(w, root, entries, o);
    }
  }

  /** A root that holds one provider and names it. */
  function HoldsOne(provider: string, entry: Entry): (World, Root) {
    (World(map["mine" := map[provider := Encoded(entry)]],
           map["auth.json" := IndexJson(NewIndex("mine", {provider}))]),
     Root("auth.json", "mine"))
  }

  /** Signing out of it deletes the secret, and when the index cannot be written then,
      it goes on naming a provider of which nothing is held. */
  lemma SigningOutBreaksThePromise(provider: string, entry: Entry)
    ensures var (w, root) := HoldsOne(provider, entry);
      var (w', failed) := SaveToKeyring(w, root, map[], OnlyWriteFails());
      && PromiseKept(w, root) && failed == Some(WriteFailed)
      && provider in Named(FileAt(w', root.path)) && provider !in VaultAt(w', root.service)
  {
    var (w, root) := HoldsOne(provider, entry);
    assert Named(FileAt(w, root.path)) == {provider};
    SaveSecretsFinishes(VaultAt(w, root.service), {provider}, map[], OnlyWriteFails());
  }

  // ----- Adoption from the shared service -----

  lemma {:induction false} AdoptKeeps(held: Vault, shared: Vault, providers: seq<string>, i: nat, o: Oracle)
    requires i <= |providers|
    ensures var (after, failed) := AdoptFrom(held, shared, providers, i, o);
      && held.Keys <= after.Keys
      && (forall p <- held.Keys :: after[p] == held[p])
      && (forall p <- after.Keys - held.Keys :: p in providers[i..] && p in shared && after[p] == shared[p])
      && (failed.None? ==> forall p <- providers[i..] :: p in after <==> p in held || p in shared)
    decreases |providers| - i
  {
    if i >= |providers| {
    } else {
      var p := providers[i];
      assert providers[i..] == [p] + providers[i + 1..];
      if p !in held && p in shared {
        AdoptKeeps(held[p := shared[p]], shared, providers, i + 1, o);
      } else {
        AdoptKeeps(held, shared, providers, i + 1, o);
      }
    }
  }

  ghost predicate OnlyAdopted(before: Vault, after: Vault, shared: Vault, providers: seq<string>) {
    && before.Keys <= after.Keys
    && (forall p <- before.Keys :: after[p] == before[p])
    && (forall p <- after.Keys - before.Keys :: p in providers && p in shared && after[p] == shared[p])
  }

  lemma AdoptionIsOnlyAdoption(before: Vault, shared: Vault, index: Index, o: Oracle)
    ensures OnlyAdopted(before, AdoptFor(before, shared, index, o).0, shared, index.providers)
    ensures before == shared ==> AdoptFor(before, shared, index, o).0 == before
  {
    AdoptKeeps(before, shared, index.providers, 0, o);
    assert index.providers[0..] == index.providers;
    var after := AdoptFor(before, shared, index, o).0;
    if before == shared { assert after.Keys == before.Keys; }
  }

  /** Loading never changes the shared vault or another root's, and what the root
      already holds stays as it is; new secrets are copies of shared ones it names. */
  lemma LoadingOnlyAdopts(w: World, root: Root, index: Index, missingSignsOut: bool, o: Oracle)
    ensures var w' := LoadForRoot(w, root, index, missingSignsOut, o).0;
      && (forall service | service != root.service || service == SHARED_SERVICE ::
            VaultAt(w', service) == VaultAt(w, service))
      && OnlyAdopted(VaultAt(w, root.service), VaultAt(w', root.service), VaultAt(w, SHARED_SERVICE), index.providers)
  {
    AdoptionIsOnlyAdoption(VaultAt(w, root.service), VaultAt(w, SHARED_SERVICE), index, o);
  }

  // ----- Runs over several roots -----

  datatype Step =
    | Loading(root: Root, usesKeychain: bool, o: Oracle)
    | Saving(root: Root, usesKeychain: bool, entries: map<string, Entry>, o: Oracle)

  function Next(w: World, step: Step): World {
    match step
    case Loading(root, usesKeychain, o) => Load(w, root, usesKeychain, o).0
    case Saving(root, usesKeychain, entries, o) => Save(w, root, usesKeychain, entries, o).0
  }

  function Run(w: World, steps: seq<Step>): World
    decreases |steps|
  {
    if steps == [] then w else Run(Next(w, steps[0]), steps[1..])
  }

  /** What a step of one root may change. */
  ghost predicate StaysHome(w: World, w': World, root: Root) {
    && (forall path | path != root.path :: FileAt(w', path) == FileAt(w, path))
    && (forall service | service != root.service :: VaultAt(w', service) == VaultAt(w, service))
    && (FileAt(w', root.path) == FileAt(w, root.path) || !Legacy(FileAt(w', root.path)))
  }

  lemma SaveStaysHome(w: World, root: Root, usesKeychain: bool, entries: map<string, Entry>, o: Oracle)
    ensures StaysHome(w, Save(w, root, usesKeychain, entries, o).0, root)
  {
  }

  lemma LoadForRootStaysHome(w: World, root: Root, index: Index, missingSignsOut: bool, o: Oracle)
    ensures StaysHome(w, LoadForRoot(w, root, index, missingSignsOut, o).0, root)
  {
  }

  /** A step writes its own file and vault only, and never makes an index legacy. */
  lemma StepStaysHome(w: World, step: Step)
    ensures StaysHome(w, Next(w, step), step.root)
  {
    match step
    case Saving(root, usesKeychain, entries, o) => SaveStaysHome(w, root, usesKeychain, entries, o);
    case Loading(root, usesKeychain, o) =>
      var file := FileAt(w, root.path);
      if ParseIndex(file).Some? {
        var (w', loaded) := LoadForRoot(w, root, ParseIndex(file).value, !usesKeychain, o);
        LoadForRootStaysHome(w, root, ParseIndex(file).value, !usesKeychain, o);
        if loaded.Ok? { SaveStaysHome(w', root, false, loaded.value, o); }
      } else if file.ClearText? {
        SaveStaysHome(w, root, true, file.entries, o);
      }
  }

  lemma {:induction false} NeverLegacyAgain(w: World, steps: seq<Step>, path: string)
    requires !Legacy(FileAt(w, path))
    ensures !Legacy(FileAt(Run(w, steps), path))
    decreases |steps|
  {
    if steps == [] {
    } else {
      StepStaysHome(w, steps[0]);
      NeverLegacyAgain(Next(w, steps[0]), steps[1..], path);
    }
  }

  /** All that a load of a root depends on. */
  ghost predicate SameView(w: World, u: World, root: Root) {
    && FileAt(w, root.path) == FileAt(u, root.path)
    && VaultAt(w, root.service) == VaultAt(u, root.service)
    && (Legacy(FileAt(w, root.path)) ==> VaultAt(w, SHARED_SERVICE) == VaultAt(u, SHARED_SERVICE))
  }

  lemma LoadDependsOnView(w: World, u: World, root: Root, usesKeychain: bool, o: Oracle)
    requires SameView(w, u, root)
    ensures Load(w, root, usesKeychain, o).1 == Load(u, root, usesKeychain, o).1
  {
  }

  /** Once a legacy index has loaded it is a current one for good, and the shared
      vault no longer makes any difference to its root. */
  lemma MigrationIsFinal(w: World, root: Root, usesKeychain: bool, o: Oracle, steps: seq<Step>)
    requires Legacy(FileAt(w, root.path)) && root.service != SHARED_SERVICE
    requires Load(w, root, usesKeychain, o).1.Ok?
    ensures var later := Run(Load(w, root, usesKeychain, o).0, steps);
      && !Legacy(FileAt(later, root.path))
      && forall shared, keychain, o' ::
           Load(WithVault(later, SHARED_SERVICE, shared), root, keychain, o').1 == Load(later, root, keychain, o').1
  {
    var loaded := Load(w, root, usesKeychain, o).0;
    assert !Legacy(FileAt(loaded, root.path));
    NeverLegacyAgain(loaded, steps, root.path);
    var later := Run(loaded, steps);
    forall shared, keychain, o'
      ensures Load(WithVault(later, SHARED_SERVICE, shared), root, keychain, o').1 == Load(later, root, keychain, o').1
    {
      LoadDependsOnView(WithVault(later, SHARED_SERVICE, shared), later, root, keychain, o');
    }
  }

  /** Whatever other roots do, with every fault, a root keeps its file and vault. */
  lemma {:induction false} OthersKeepView(w: World, steps: seq<Step>, root: Root)
    requires forall i | 0 <= i < |steps| :: steps[i].root.path != root.path && steps[i].root.service != root.service
    requires Legacy(FileAt(w, root.path)) ==> forall i | 0 <= i < |steps| :: steps[i].root.service != SHARED_SERVICE
    ensures SameView(w, Run(w, steps), root)
    decreases |steps|
  {
    if steps == [] {
    } else {
      StepStaysHome(w, steps[0]);
      OthersKeepView(Next(w, steps[0]), steps[1..], root);
    }
  }

  function AllWorks(): (o: Oracle)
    ensures forall access :: o(access).Works?
  {
    access => Works
  }

  /** Steps of roots with another file and another service. */
  ghost predicate OfOthers(steps: seq<Step>, root: Root) {
    forall i | 0 <= i < |steps| :: steps[i].root.path != root.path && steps[i].root.service != root.service
  }

  ghost predicate LeaveShared(steps: seq<Step>) {
    forall i | 0 <= i < |steps| :: steps[i].root.service != SHARED_SERVICE
  }

  lemma {:induction false} OthersKeepOwn(w: World, steps: seq<Step>, root: Root)
    requires OfOthers(steps, root)
    ensures FileAt(Run(w, steps), root.path) == FileAt(w, root.path)
    ensures VaultAt(Run(w, steps), root.service) == VaultAt(w, root.service)
    decreases |steps|
  {
    if steps == [] {
    } else {
      StepStaysHome(w, steps[0]);
      OthersKeepOwn(Next(w, steps[0]), steps[1..], root);
    }
  }

  /** A root that holds all it would adopt never looks at the shared vault. */
  lemma {:induction false} AdoptsNothing(held: Vault, shared: Vault, other: Vault, providers: seq<string>, i: nat,
      o: Oracle)
    requires i <= |providers| && Elements(providers) <= held.Keys
    ensures AdoptFrom(held, shared, providers, i, o) == AdoptFrom(held, other, providers, i, o)
    decreases |providers| - i
  {
    if i == |providers| {
    } else {
      assert providers[i] in Elements(providers);
      AdoptsNothing(held, shared, other, providers, i + 1, o);
    }
  }

  /** A legacy root that may still take something from the shared vault. */
  ghost predicate Exposed(w: World, root: Root) {
    && Legacy(FileAt(w, root.path)) && root.service != SHARED_SERVICE
    && !(Named(FileAt(w, root.path)) <= VaultAt(w, root.service).Keys)
  }

  lemma LoadIgnoresShared(w: World, u: World, root: Root, usesKeychain: bool, o: Oracle)
    requires FileAt(w, root.path) == FileAt(u, root.path) && VaultAt(w, root.service) == VaultAt(u, root.service)
    requires !Exposed(w, root)
    ensures Load(w, root, usesKeychain, o).1 == Load(u, root, usesKeychain, o).1
  {
    var file := FileAt(w, root.path);
    if Legacy(file) && root.service != SHARED_SERVICE {
      AdoptsNothing(VaultAt(w, root.service), VaultAt(w, SHARED_SERVICE), VaultAt(u, SHARED_SERVICE),
                    ParseIndex(file).value.providers, 0, o);
    } else {
      LoadDependsOnView(w, u, root, usesKeychain, o);
    }
  }

  /** No run of other roots changes what a root loads, unless its index is still legacy
      and names a provider it does not hold, and one of them is the root that owns the
      shared service. */
  lemma OthersNeverChangeALoad(w: World, steps: seq<Step>, root: Root, usesKeychain: bool, o: Oracle)
    requires OfOthers(steps, root)
    requires Exposed(w, root) ==> LeaveShared(steps)
    ensures Load(Run(w, steps), root, usesKeychain, o).1 == Load(w, root, usesKeychain, o).1
  {
    if Exposed(w, root) {
      OthersKeepView(w, steps, root);
      LoadDependsOnView(w, Run(w, steps), root, usesKeychain, o);
    } else {
      OthersKeepOwn(w, steps, root);
      LoadIgnoresShared(w, Run(w, steps), root, usesKeychain, o);
    }
  }

  // ----- When a load can be changed by others -----

  ghost function SharedRoot(root: Root): (main: Root)
    ensures main.path != root.path && main.service == SHARED_SERVICE
  {
    Root(root.path + "x", SHARED_SERVICE)
  }

  ghost function ForAll(providers: set<string>, entry: Entry): (entries: map<string, Entry>)
    ensures entries.Keys == providers && forall p <- providers :: entries[p] == entry
  {
    map p | p in providers :: entry
  }

  /** The owner of the shared service saves one entry for every named provider. */
  ghost function SharedSave(w: World, root: Root, entry: Entry): Step {
    Saving(SharedRoot(root), true, ForAll(Named(FileAt(w, root.path)), entry), AllWorks())
  }

  lemma SharedSaveHolds(w: World, root: Root, entry: Entry)
    ensures var u := Run(w, [SharedSave(w, root, entry)]);
      Holds(VaultAt(u, SHARED_SERVICE), ForAll(Named(FileAt(w, root.path)), entry))
  {
    var main, entries := SharedRoot(root), ForAll(Named(FileAt(w, root.path)), entry);
    SaveSecretsFinishes(VaultAt(w, SHARED_SERVICE), Previous(FileAt(w, main.path), AllWorks()), entries, AllWorks());
    var step := SharedSave(w, root, entry);
    assert Run(Next(w, step), []) == Next(w, step);
    assert [step][1..] == [];
  }

  lemma {:induction false} AdoptionWorks(held: Vault, shared: Vault, providers: seq<string>, i: nat)
    requires i <= |providers|
    ensures AdoptFrom(held, shared, providers, i, AllWorks()).1.None?
    decreases |providers| - i
  {
    if i == |providers| {
    } else {
      var p := providers[i];
      if p in held || p !in shared {
        AdoptionWorks(held, shared, providers, i + 1);
      } else {
        AdoptionWorks(held[p := shared[p]], shared, providers, i + 1);
      }
    }
  }

  /** What a root holds of its named providers can be decoded. */
  ghost predicate Decodes(held: Vault, named: set<string>) {
    forall p <- named * held.Keys :: held[p].Encoded?
  }

  /** With the shared vault holding one entry for all, a load takes it where the root
      holds nothing itself. */
  lemma LoadTakesShared(w: World, root: Root, entry: Entry, p: string)
    requires Legacy(FileAt(w, root.path)) && root.service != SHARED_SERVICE
    requires Holds(VaultAt(w, SHARED_SERVICE), ForAll(Named(FileAt(w, root.path)), entry))
    requires Decodes(VaultAt(w, root.service), Named(FileAt(w, root.path)))
    requires p in Named(FileAt(w, root.path)) && p !in VaultAt(w, root.service)
    ensures var r := Load(w, root, true, AllWorks()).1; r.Ok? && p in r.value && r.value[p] == entry
  {
    var o, index := AllWorks(), ParseIndex(FileAt(w, root.path)).value;
    var held, shared := VaultAt(w, root.service), VaultAt(w, SHARED_SERVICE);
    var after := AdoptFrom(held, shared, index.providers, 0, o).0;
    AdoptionWorks(held, shared, index.providers, 0);
    AdoptKeeps(held, shared, index.providers, 0, o);
    assert index.providers[0..] == index.providers;
    forall q <- index.providers ensures q in after && after[q].Encoded? {
      assert q in Elements(index.providers);
    }
    LoadsEach(after, index.providers, 0, false, map[], o);
    assert p in index.providers && after[p] == Encoded(entry);
  }

  lemma SharedSaveShows(w: World, root: Root, p: string, entry: Entry)
    requires Exposed(w, root) && Decodes(VaultAt(w, root.service), Named(FileAt(w, root.path)))
    requires p in Named(FileAt(w, root.path)) && p !in VaultAt(w, root.service)
    ensures var steps := [SharedSave(w, root, entry)];
      && OfOthers(steps, root)
      && var r := Load(Run(w, steps), root, true, AllWorks()).1;
         r.Ok? && p in r.value && r.value[p] == entry
  {
    var steps := [SharedSave(w, root, entry)];
    OthersKeepOwn(w, steps, root);
    SharedSaveHolds(w, root, entry);
    LoadTakesShared(Run(w, steps), root, entry, p);
  }

  /** Others change what an exposed root loads, though every access works. */
  lemma SharedSavesDiffer(w: World, root: Root) returns (steps: seq<Step>)
    requires Exposed(w, root) && Decodes(VaultAt(w, root.service), Named(FileAt(w, root.path)))
    ensures OfOthers(steps, root) && Load(Run(w, steps), root, true, AllWorks()).1 != Load(w, root, true, AllWorks()).1
  {
    var p :| p in Named(FileAt(w, root.path)) && p !in VaultAt(w, root.service);
    var r := Load(w, root, true, AllWorks()).1;
    var first, second := ApiKey("a"), ApiKey("b");
    assert first.key[0] != second.key[0];
    var entry := if r.Ok? && p in r.value && r.value[p] == first then second else first;
    steps := [SharedSave(w, root, entry)];
    SharedSaveShows(w, root, p, entry);
  }

  /** For a root with a legacy index whose own secrets decode, what it loads when every
      access works is safe from every run of other roots exactly when it holds every
      provider it names, or is itself the one that owns the shared service. */
  lemma PlainLoadIsSafeExactly(w: World, root: Root)
    requires Legacy(FileAt(w, root.path)) && Decodes(VaultAt(w, root.service), Named(FileAt(w, root.path)))
    ensures (forall steps | OfOthers(steps, root) ::
               Load(Run(w, steps), root, true, AllWorks()).1 == Load(w, root, true, AllWorks()).1) <==>
            Named(FileAt(w, root.path)) <= VaultAt(w, root.service).Keys || root.service == SHARED_SERVICE
  {
    if Exposed(w, root) {
      var steps := SharedSavesDiffer(w, root);
    } else {
      forall steps | OfOthers(steps, root)
        ensures Load(Run(w, steps), root, true, AllWorks()).1 == Load(w, root, true, AllWorks()).1
      {
        OthersNeverChangeALoad(w, steps, root, true, AllWorks());
      }
    }
  }

  // ----- What a file says, and loading it again -----

  /** The world a load leaves, as its root sees it: with the keychain an index of what it
      returned, all of it held. */
  ghost predicate Settled(w: World, root: Root, entries: map<string, Entry>) {
    var file := FileAt(w, root.path);
    || (file.Absent? && entries == map[])
    || (ParseIndex(file).Some? && file.index.scope == Some(root.service)
        && Elements(file.index.providers) == entries.Keys && Holds(VaultAt(w, root.service), entries))
  }

  lemma IndexLoadSettles(w: World, root: Root, index: Index, o: Oracle)
    requires root.service != "" && FileAt(w, root.path) == IndexJson(index) && ValidIndex(index)
    requires LoadForRoot(w, root, index, false, o).1.Ok?
    ensures var (w', r) := LoadForRoot(w, root, index, false, o); Settled(w', root, r.value)
  {
    StrictLoadIsComplete(w, root, index, o);
  }

  lemma KeyringSaveSettles(w: World, root: Root, entries: map<string, Entry>, o: Oracle)
    requires root.service != "" && SaveToKeyring(w, root, entries, o).1.None?
    ensures Settled(SaveToKeyring(w, root, entries, o).0, root, entries)
  {
    SaveSecretsFinishes(VaultAt(w, root.service), Previous(FileAt(w, root.path), o), entries, o);
  }

  lemma LoadSettles(w: World, root: Root, o: Oracle)
    requires root.service != "" && Load(w, root, true, o).1.Ok?
    ensures var (w', r) := Load(w, root, true, o); Settled(w', root, r.value)
  {
    match FileAt(w, root.path)
    case IndexJson(index) => IndexLoadSettles(w, root, index, o);
    case ClearText(entries, _) => KeyringSaveSettles(w, root, entries, o);
    case _ =>
  }

  lemma SettledLoads(w: World, root: Root, entries: map<string, Entry>, o: Oracle)
    requires root.service != "" && Settled(w, root, entries)
    ensures var (w', r) := Load(w, root, true, o);
      && w' == w
      && (r == Ok(entries) || (r.Err? && (r.error.FileUnreadable? || r.error.StoreDenied?)))
      && (o(ReadFile).Works? && (forall i :: o(Get(i)).Works?) ==> r == Ok(entries))
  {
    var file := FileAt(w, root.path);
    if !file.Absent? {
      var held := VaultAt(w, root.service);
      assert forall p <- file.index.providers :: p in Elements(file.index.providers);
      LoadsEach(held, file.index.providers, 0, false, map[], o);
      assert file.index.providers[0..] == file.index.providers;
      var r := LoadFrom(held, file.index.providers, 0, false, map[], o);
      if r.Ok? {
        assert r.value.Keys == entries.Keys;
        assert r.value == entries;
      }
    }
  }

  /** Whatever a load found and moved, the next load returns the same or cannot read the
      file or the store, and changes nothing; with the keychain the file then names
      exactly the providers that were returned. */
  lemma LoadingAgain(w: World, root: Root, usesKeychain: bool, o: Oracle, o': Oracle)
    requires root.service != "" && Load(w, root, usesKeychain, o).1.Ok?
    ensures var (w', loaded) := Load(w, root, usesKeychain, o);
      var (after, again) := Load(w', root, usesKeychain, o');
      && after == w'
      && (again == loaded || (again.Err? && (again.error.FileUnreadable? || again.error.StoreDenied?)))
      && (o'(ReadFile).Works? && (forall i :: o'(Get(i)).Works?) ==> again == loaded)
      && (usesKeychain ==> Named(FileAt(w', root.path)) == loaded.value.Keys)
  {
    if usesKeychain {
      LoadSettles(w, root, o);
      SettledLoads(Load(w, root, true, o).0, root, Load(w, root, true, o).1.value, o');
    }
  }

  /** A clear-text store loads as what it holds, and only if its owner alone can read it;
      with the keychain in use it ends up there. */
  lemma ClearTextLoadsExactly(w: World, root: Root, usesKeychain: bool, o: Oracle)
    requires FileAt(w, root.path).ClearText?
    ensures var (file, (w', r)) := (FileAt(w, root.path), Load(w, root, usesKeychain, o));
      && (r.Ok? ==> file.ownerOnly && r.value == file.entries)
      && (file.ownerOnly && (forall access :: o(access).Works?) ==> r.Ok?)
      && (r.Err? && !usesKeychain ==> w' == w) && (!file.ownerOnly ==> w' == w)
      && (r.Ok? ==> if usesKeychain then FileAt(w', root.path).IndexJson? && Holds(VaultAt(w', root.service), r.value)
                    else w' == w)
  {
    var file := FileAt(w, root.path);
    SaveSecretsFinishes(VaultAt(w, root.service), Previous(file, o), file.entries, o);
  }

  /** An index of another root is never loaded, and nothing is changed for it. */
  lemma ForeignIndexNeverLoads(w: World, root: Root, usesKeychain: bool, o: Oracle)
    requires FileAt(w, root.path).IndexJson? && FileAt(w, root.path).index.scope.Some?
    requires FileAt(w, root.path).index.scope != Some(root.service)
    ensures Load(w, root, usesKeychain, o).0 == w && Load(w, root, usesKeychain, o).1.Err?
  {
  }

  /** The secret of a provider for a root that may adopt it: its own goes first. */
  function Available(own: Vault, shared: Vault, p: string): Option<Secret> {
    if p in own then Some(own[p]) else if p in shared then Some(shared[p]) else None
  }

  /** When every access works, a legacy index loads exactly if every provider it names has
      a secret that decodes, its own or else the shared one, and those are returned. */
  lemma LegacyLoadsExactly(w: World, root: Root)
    requires Legacy(FileAt(w, root.path))
    ensures var (own, shared) := (VaultAt(w, root.service), VaultAt(w, SHARED_SERVICE));
      var (named, r) := (Named(FileAt(w, root.path)), Load(w, root, true, AllWorks()).1);
      && (r.Ok? <==> forall p <- named :: Available(own, shared, p).Some? && Available(own, shared, p).value.Encoded?)
      && (r.Ok? ==>
            && r.value.Keys == named
            && forall p <- named :: Some(Encoded(r.value[p])) == Available(own, shared, p))
  {
    var (own, shared, o) := (VaultAt(w, root.service), VaultAt(w, SHARED_SERVICE), AllWorks());
    var index := FileAt(w, root.path).index;
    AdoptionWorks(own, shared, index.providers, 0);
    AdoptKeeps(own, shared, index.providers, 0, o);
    assert index.providers[0..] == index.providers;
    var held := AdoptFrom(own, shared, index.providers, 0, o).0;
    LoadsEach(held, index.providers, 0, false, map[], o);
    forall p <- index.providers ensures (if p in held then Some(held[p]) else None) == Available(own, shared, p) {
      assert p in held <==> p in own || p in shared;
    }
    var r := LoadFrom(held, index.providers, 0, false, map[], o);
    assert Load(w, root, true, o).1 == r;
    assert Named(FileAt(w, root.path)) == Elements(index.providers);
    forall p <- Elements(index.providers) ensures p in index.providers {}
    if r.Ok? {
      forall p <- Named(FileAt(w, root.path)) ensures p in held && held[p] == Encoded(r.value[p]) {
        assert p in index.providers && p in r.value;
      }
    } else if forall p <- index.providers :: p in held && held[p].Encoded? {
      assert false;
    } else {
      var p :| p in index.providers && !(p in held && held[p].Encoded?);
      assert p in Named(FileAt(w, root.path));
    }
  }

  // ----- No fault goes unreported -----

  lemma {:induction false} AdoptionNeedsReads(held: Vault, shared: Vault, providers: seq<string>, i: nat, o: Oracle)
    requires i <= |providers| && AdoptFrom(held, shared, providers, i, o).1.None?
    ensures forall k | i <= k < |providers| :: o(GetOwn(k)).Works?
    ensures forall k | i <= k < |providers| && providers[k] !in held && providers[k] !in providers[i..k] ::
      o(GetShared(k)).Works? && (providers[k] in shared ==> o(Adopt(k)).Works?)
    decreases |providers| - i
  {
    if i == |providers| {
    } else {
      var p := providers[i];
      var later := if p !in held && p in shared then held[p := shared[p]] else held;
      AdoptionNeedsReads(later, shared, providers, i + 1, o);
      forall k | i < k < |providers| && providers[k] !in held && providers[k] !in providers[i..k]
        ensures providers[k] !in later && providers[k] !in providers[i + 1..k]
      {
        assert providers[i] == providers[i..k][0];
        assert providers[i + 1..k] == providers[i..k][1..];
      }
    }
  }

  lemma {:induction false} LoadNeedsReads(held: Vault, providers: seq<string>, i: nat, missingSignsOut: bool,
                                          entries: map<string, Entry>, o: Oracle)
    requires i <= |providers| && LoadFrom(held, providers, i, missingSignsOut, entries, o).Ok?
    ensures forall k | i <= k < |providers| :: o(Get(k)).Works?
    decreases |providers| - i
  {
    if i == |providers| {
    } else {
      var p := providers[i];
      LoadNeedsReads(held, providers, i + 1, missingSignsOut,
        if p in held && held[p].Encoded? then entries[p := held[p].entry] else entries, o);
    }
  }

  /** A load that succeeds had every access it needs work: the file, the secret of every
      provider the index names and, for a legacy index, what is adopted and its rewriting. */
  lemma SuccessNeedsEveryAccess(w: World, root: Root, usesKeychain: bool, o: Oracle)
    requires Load(w, root, usesKeychain, o).1.Ok? && !FileAt(w, root.path).Absent?
    ensures o(ReadFile).Works?
    ensures var (file, own) := (FileAt(w, root.path), VaultAt(w, root.service));
      ParseIndex(file).Some? ==>
        var providers := file.index.providers;
        && (forall k | 0 <= k < |providers| :: o(Get(k)).Works?)
        && (!usesKeychain ==> o(WriteClear).Works?)
        && (Legacy(file) ==>
              && o(WriteMigrated).Works? && (forall k | 0 <= k < |providers| :: o(GetOwn(k)).Works?)
              && forall k | 0 <= k < |providers| && providers[k] !in own && providers[k] !in providers[..k] ::
                   o(GetShared(k)).Works? && (providers[k] in VaultAt(w, SHARED_SERVICE) ==> o(Adopt(k)).Works?))
  {
    var file, own, shared := FileAt(w, root.path), VaultAt(w, root.service), VaultAt(w, SHARED_SERVICE);
    if ParseIndex(file).Some? {
      var index := file.index;
      var held := AdoptFor(own, shared, index, o).0;
      LoadNeedsReads(held, index.providers, 0, !usesKeychain, map[], o);
      if Legacy(file) {
        AdoptionNeedsReads(own, shared, index.providers, 0, o);
        assert forall k | 0 <= k < |index.providers| :: index.providers[0..k] == index.providers[..k];
      }
    }
  }

  lemma {:induction false} LenientLoads(held: Vault, providers: seq<string>, i: nat, entries: map<string, Entry>,
                                        o: Oracle)
    requires i <= |providers| && forall k :: o(Get(k)).Works?
    ensures LoadFrom(held, providers, i, true, entries, o).Ok? <==>
            forall k | i <= k < |providers| :: providers[k] in held ==> held[providers[k]].Encoded?
    decreases |providers| - i
  {
    if i == |providers| {
    } else {
      var p := providers[i];
      LenientLoads(held, providers, i + 1,
        if p in held && held[p].Encoded? then entries[p := held[p].entry] else entries, o);
    }
  }

  /** Every secret held for a provider the index names decodes. */
  ghost predicate DecodesAll(w: World, root: Root) {
    var held := VaultAt(w, root.service);
    forall p <- Named(FileAt(w, root.path)) * held.Keys :: held[p].Encoded?
  }

  /** Without the keychain, when every access works, an index of the root's own loads
      unless a secret it names does not decode, and what it returned is then saved. */
  lemma LenientLoadsExactly(w: World, root: Root)
    requires ParseIndex(FileAt(w, root.path)).Some? && FileAt(w, root.path).index.scope == Some(root.service)
    ensures var (w', r) := Load(w, root, false, AllWorks());
      var (named, held) := (Named(FileAt(w, root.path)), VaultAt(w, root.service));
      && (r.Ok? <==> DecodesAll(w, root))
      && (r.Ok? ==> r.value.Keys == named * held.Keys && FileAt(w', root.path) == ClearText(r.value, true))
  {
    var index, held := FileAt(w, root.path).index, VaultAt(w, root.service);
    LenientLoads(held, index.providers, 0, map[], AllWorks());
    LenientLoadSignsOutAbsent(w, root, index, AllWorks());
    var named := Named(FileAt(w, root.path));
    assert forall k | 0 <= k < |index.providers| :: index.providers[k] in named;
    if forall k | 0 <= k < |index.providers| :: index.providers[k] in held ==> held[index.providers[k]].Encoded? {
      forall p <- named * held.Keys ensures held[p].Encoded? {
        var k :| 0 <= k < |index.providers| && index.providers[k] == p;
      }
      assert DecodesAll(w, root);
    } else {
      var k :| 0 <= k < |index.providers| && index.providers[k] in held && !held[index.providers[k]].Encoded?;
      assert index.providers[k] in named * held.Keys;
      assert !DecodesAll(w, root);
    }
  }

  /** Saving without the keychain leaves exactly the entries in a file of the owner's, or
      changes nothing; what was saved is what loads. */
  lemma ClearTextSaveExactly(w: World, root: Root, entries: map<string, Entry>, o: Oracle, o': Oracle)
    ensures var (w', failed) := Save(w, root, false, entries, o);
      && (failed.None? <==> o(WriteClear).Works?)
      && w'.vaults == w.vaults
      && (failed.Some? ==> w' == w)
      && (failed.None? ==>
            && FileAt(w', root.path) == ClearText(entries, true)
            && (o'(ReadFile).Works? ==> Load(w', root, false, o') == (w', Ok(entries))))
  {
  }

  /** When the index before it cannot be read, a save deletes nothing. */
  lemma UnreadIndexDropsNothing(w: World, root: Root, entries: map<string, Entry>, o: Oracle)
    requires !o(ReadPrevious).Works?
    ensures VaultAt(w, root.service).Keys <= VaultAt(SaveToKeyring(w, root, entries, o).0, root.service).Keys
  {
    SaveSecretsKeeps(VaultAt(w, root.service), Previous(FileAt(w, root.path), o), entries, o);
  }

  // ----- The same for loads with faults -----

  /** Everything works but copying a shared secret. */
  ghost function OnlyAdoptFails(): (o: Oracle)
    ensures forall i :: o(Adopt(i)) == FailsBefore
    ensures forall access: Access | !access.Adopt? :: o(access).Works?
  {
    (access: Access) => if access.Adopt? then FailsBefore else Works
  }

  lemma {:induction false} AdoptionRefused(held: Vault, shared: Vault, providers: seq<string>, i: nat)
    requires i <= |providers|
    ensures var failed := AdoptFrom(held, shared, providers, i, OnlyAdoptFails()).1;
      if exists k | i <= k < |providers| :: providers[k] !in held && providers[k] in shared
      then failed.Some? && failed.value.AdoptionFailed? else failed.None?
    decreases |providers| - i
  {
    if i == |providers| {
    } else {
      AdoptionRefused(held, shared, providers, i + 1);
    }
  }

  lemma {:induction false} LoadingIsNotAdopting(held: Vault, providers: seq<string>, i: nat, missingSignsOut: bool,
                                                entries: map<string, Entry>, o: Oracle)
    requires i <= |providers|
    ensures var r := LoadFrom(held, providers, i, missingSignsOut, entries, o); r.Err? ==> !r.error.AdoptionFailed?
    decreases |providers| - i
  {
    if i == |providers| {
    } else {
      var p := providers[i];
      LoadingIsNotAdopting(held, providers, i + 1, missingSignsOut, entries, o);
      if p in held && held[p].Encoded? {
        LoadingIsNotAdopting(held, providers, i + 1, missingSignsOut, entries[p := held[p].entry], o);
      }
    }
  }

  /** With copying refused, a load fails to adopt just when there is something to adopt. */
  lemma AdoptionShows(w: World, root: Root)
    requires Legacy(FileAt(w, root.path)) && root.service != SHARED_SERVICE
    ensures var r := Load(w, root, true, OnlyAdoptFails()).1;
      r.Err? && r.error.AdoptionFailed? <==>
      exists p | p in Named(FileAt(w, root.path)) :: p !in VaultAt(w, root.service) && p in VaultAt(w, SHARED_SERVICE)
  {
    var o, index := OnlyAdoptFails(), ParseIndex(FileAt(w, root.path)).value;
    var held, shared := VaultAt(w, root.service), VaultAt(w, SHARED_SERVICE);
    AdoptionRefused(held, shared, index.providers, 0);
    LoadingIsNotAdopting(AdoptFrom(held, shared, index.providers, 0, o).0, index.providers, 0, false, map[], o);
    if exists p | p in Named(FileAt(w, root.path)) :: p !in held && p in shared {
      var p :| p in Elements(index.providers) && p !in held && p in shared;
      var k :| 0 <= k < |index.providers| && index.providers[k] == p;
    } else {
      forall k | 0 <= k < |index.providers| ensures index.providers[k] in held || index.providers[k] !in shared {
        assert index.providers[k] in Elements(index.providers);
      }
    }
  }

  /** After the save for all, the owner of the shared service drops everything. */
  ghost function SharedDrop(w: World, root: Root): seq<Step> {
    [SharedSave(w, root, ApiKey("")), Saving(SharedRoot(root), true, map[], AllWorks())]
  }

  lemma SharedDropDrops(w: World, root: Root)
    ensures VaultAt(Run(w, SharedDrop(w, root)), SHARED_SERVICE).Keys !! Named(FileAt(w, root.path))
  {
    var main, named := SharedRoot(root), Named(FileAt(w, root.path));
    var entries, o := ForAll(named, ApiKey("")), AllWorks();
    var step, drop := SharedSave(w, root, ApiKey("")), Saving(main, true, map[], o);
    SaveSecretsFinishes(VaultAt(w, SHARED_SERVICE), Previous(FileAt(w, main.path), o), entries, o);
    var u := Next(w, step);
    assert ParseIndex(FileAt(u, main.path)) == Some(NewIndex(SHARED_SERVICE, named));
    assert Previous(FileAt(u, main.path), o) == named;
    SaveSecretsFinishes(VaultAt(u, SHARED_SERVICE), named, map[], o);
    assert [step, drop][1..] == [drop] && [drop][1..] == [];
    assert Run(Next(u, drop), []) == Next(u, drop);
  }

  lemma SharedDropDiffers(w: World, root: Root)
    requires Exposed(w, root)
    ensures OfOthers([SharedSave(w, root, ApiKey(""))], root) && OfOthers(SharedDrop(w, root), root)
    ensures Load(Run(w, [SharedSave(w, root, ApiKey(""))]), root, true, OnlyAdoptFails()).1
            != Load(Run(w, SharedDrop(w, root)), root, true, OnlyAdoptFails()).1
  {
    var one, two := [SharedSave(w, root, ApiKey(""))], SharedDrop(w, root);
    OthersKeepOwn(w, one, root);
    OthersKeepOwn(w, two, root);
    SharedSaveHolds(w, root, ApiKey(""));
    SharedDropDrops(w, root);
    AdoptionShows(Run(w, one), root);
    AdoptionShows(Run(w, two), root);
    var p :| p in Named(FileAt(w, root.path)) && p !in VaultAt(w, root.service);
    assert p in ForAll(Named(FileAt(w, root.path)), ApiKey("")).Keys;
  }

  /** Others change what an exposed root loads when copying fails. */
  lemma FaultyLoadsDiffer(w: World, root: Root) returns (steps: seq<Step>)
    requires Exposed(w, root)
    ensures OfOthers(steps, root)
    ensures Load(Run(w, steps), root, true, OnlyAdoptFails()).1 != Load(w, root, true, OnlyAdoptFails()).1
  {
    SharedDropDiffers(w, root);
    steps := [SharedSave(w, root, ApiKey(""))];
    if Load(Run(w, steps), root, true, OnlyAdoptFails()).1 == Load(w, root, true, OnlyAdoptFails()).1 {
      steps := SharedDrop(w, root);
    }
  }

  /** What a root loads, however it is loaded, is the same after every run of others. */
  ghost predicate SafeFromOthers(w: World, root: Root) {
    forall steps, usesKeychain, o | OfOthers(steps, root) ::
      Load(Run(w, steps), root, usesKeychain, o).1 == Load(w, root, usesKeychain, o).1
  }

  /** Under any faults, and whatever its own secrets decode to: what a root with a legacy
      index loads is safe from every run of other roots exactly when it holds every
      provider it names, or is itself the one that owns the shared service. */
  lemma LoadIsSafeExactly(w: World, root: Root)
    requires Legacy(FileAt(w, root.path))
    ensures SafeFromOthers(w, root) <==>
            Named(FileAt(w, root.path)) <= VaultAt(w, root.service).Keys || root.service == SHARED_SERVICE
  {
    if Exposed(w, root) {
      var steps := FaultyLoadsDiffer(w, root);
    } else {
      forall steps, usesKeychain, o | OfOthers(steps, root)
        ensures Load(Run(w, steps), root, usesKeychain, o).1 == Load(w, root, usesKeychain, o).1
      {
        OthersNeverChangeALoad(w, steps, root, usesKeychain, o);
      }
    }
  }

  /** The exception is real: a legacy root loads what the default root last saved. */
  lemma LegacyRootSeesSharedSave(root: Root, main: Root, p: string, before: Entry, after: Entry)
    requires root.path != main.path && root.service != SHARED_SERVICE && main.service == SHARED_SERVICE
    ensures var w := World(map[SHARED_SERVICE := map[p := Encoded(before)]],
                           map[root.path := IndexJson(Index(1, INDEX_STORAGE, [p], None))]);
      && Load(w, root, true, AllWorks()).1 == Ok(map[p := before])
      && Load(Save(w, main, true, map[p := after], AllWorks()).0, root, true, AllWorks()).1 == Ok(map[p := after])
  {
    var o, index := AllWorks(), Index(1, INDEX_STORAGE, [p], None);
    var w := World(map[SHARED_SERVICE := map[p := Encoded(before)]], map[root.path := IndexJson(index)]);
    var w' := Save(w, main, true, map[p := after], o).0;
    SaveSecretsFinishes(VaultAt(w, SHARED_SERVICE), {}, map[p := after], o);
    AdoptsOne(VaultAt(w, SHARED_SERVICE), p, before);
    AdoptsOne(VaultAt(w', SHARED_SERVICE), p, after);
  }

  lemma AdoptsOne(shared: Vault, p: string, entry: Entry)
    requires p in shared && shared[p] == Encoded(entry)
    ensures AdoptFrom(map[], shared, [p], 0, AllWorks()) == (map[p := Encoded(entry)], None)
    ensures LoadFrom(map[p := Encoded(entry)], [p], 0, false, map[], AllWorks()) == Ok(map[p := entry])
  {
    var o, held := AllWorks(), map[p := Encoded(entry)];
    assert AdoptFrom(held, shared, [p], 1, o) == (held, None);
    assert LoadFrom(held, [p], 1, false, map[p := entry], o) == Ok(map[p := entry]);
  }

  /** With the credential store in use, no run leaves a credential in clear text
      that was not in clear text at the start. */
  lemma {:induction false} KeychainNeverWritesClearText(w: World, steps: seq<Step>, path: string)
    requires forall i | 0 <= i < |steps| :: steps[i].usesKeychain
    ensures FileAt(Run(w, steps), path).ClearText? ==> FileAt(Run(w, steps), path) == FileAt(w, path)
    decreases |steps|
  {
    if steps == [] {
    } else {
      var w' := Next(w, steps[0]);
      assert FileAt(w', path).ClearText? ==> FileAt(w', path) == FileAt(w, path);
      KeychainNeverWritesClearText(w', steps[1..], path);
    }
  }

  // ----- The store as it runs -----

  /** Worlds that no access can tell apart. */
  ghost predicate Alike(w: World, u: World) {
    w.files == u.files && forall service :: VaultAt(w, service) == VaultAt(u, service)
  }

  ghost predicate OthersSame(before: World, w: World, service: string) {
    forall other | other != service :: VaultAt(w, other) == VaultAt(before, other)
  }

  /** A world in which one vault was replaced, however that came about. */
  lemma AlikeAfter(before: World, w: World, u: World, service: string, held: Vault)
    requires w.files == u.files && u.vaults == before.vaults[service := held]
    requires VaultAt(w, service) == held && OthersSame(before, w, service)
    ensures Alike(w, u)
  {
  }

  lemma SaveRespectsAlike(w: World, u: World, root: Root, entries: map<string, Entry>, o: Oracle)
    requires Alike(w, u)
    ensures Save(w, root, false, entries, o).1 == Save(u, root, false, entries, o).1
    ensures Alike(Save(w, root, false, entries, o).0, Save(u, root, false, entries, o).0)
  {
    forall service
      ensures VaultAt(Save(w, root, false, entries, o).0, service) ==
              VaultAt(Save(u, root, false, entries, o).0, service) {
      assert VaultAt(w, service) == VaultAt(u, service);
    }
  }

  /** The credential store and the files of one machine. */
  class Machine {
    var vaults: map<string, Vault>
    var files: map<string, File>

    function State(): World
      reads this
    {
      World(vaults, files)
    }

    function Vault(service: string): Vault
      reads this
    {
      VaultAt(State(), service)
    }

    method SetSecret(service: string, provider: string, secret: Secret, fault: Fault) returns (ok: bool)
      modifies this`vaults
      ensures ok == fault.Works?
      ensures Vault(service) ==
              if fault.FailsBefore? then old(Vault(service)) else old(Vault(service))[provider := secret]
      ensures OthersSame(old(State()), State(), service)
    {
      if !fault.FailsBefore? {
        vaults := vaults[service := Vault(service)[provider := secret]];
      }
      ok := fault.Works?;
    }

    method DeleteSecret(service: string, provider: string, fault: Fault) returns (ok: bool)
      modifies this`vaults
      ensures ok == fault.Works?
      ensures Vault(service) == if fault.FailsBefore? then old(Vault(service)) else old(Vault(service)) - {provider}
      ensures OthersSame(old(State()), State(), service)
    {
      if !fault.FailsBefore? {
        vaults := vaults[service := Vault(service) - {provider}];
      }
      ok := fault.Works?;
    }

    method SetSecrets(service: string, entries: map<string, Entry>, o: Oracle) returns (failed: Option<string>)
      modifies this`vaults
      ensures (Vault(service), failed) == SetAll(old(Vault(service)), entries, Sorted(entries.Keys), o)
      ensures OthersSame(old(State()), State(), service)
    {
      var order := Sorted(entries.Keys);
      for i := 0 to |order|
        invariant SetAll(old(Vault(service)), entries, order, o) == SetAll(Vault(service), entries, order[i..], o)
        invariant OthersSame(old(State()), State(), service)
      {
        var ok := SetSecret(service, order[i], Encoded(entries[order[i]]), o(Set(order[i])));
        if !ok {
          return Some(order[i]);
        }
      }
      failed := None;
    }

    method DeleteSecrets(service: string, dropped: set<string>, o: Oracle) returns (failed: Option<string>)
      modifies this`vaults
      ensures (Vault(service), failed) == DeleteAll(old(Vault(service)), Sorted(dropped), o)
      ensures OthersSame(old(State()), State(), service)
    {
      var order := Sorted(dropped);
      for i := 0 to |order|
        invariant DeleteAll(old(Vault(service)), order, o) == DeleteAll(Vault(service), order[i..], o)
        invariant OthersSame(old(State()), State(), service)
      {
        var ok := DeleteSecret(service, order[i], o(Delete(order[i])));
        if !ok {
          return Some(order[i]);
        }
      }
      failed := None;
    }

    method SetThenDelete(service: string, previous: set<string>, entries: map<string, Entry>, o: Oracle)
      returns (failed: Option<SaveError>)
      modifies this`vaults
      ensures (Vault(service), failed) == SaveSecrets(old(Vault(service)), previous, entries, o)
      ensures OthersSame(old(State()), State(), service)
    {
      var notSet := SetSecrets(service, entries, o);
      if notSet.Some? {
        return Some(SetFailed(notSet.value));
      }
      var notDeleted := DeleteSecrets(service, previous - entries.Keys, o);
      failed := if notDeleted.Some? then Some(DeleteFailed(notDeleted.value)) else None;
    }

    method SaveKeyringAuth(root: Root, entries: map<string, Entry>, o: Oracle) returns (failed: Option<SaveError>)
      modifies this
      ensures failed == SaveToKeyring(old(State()), root, entries, o).1
      ensures Alike(State(), SaveToKeyring(old(State()), root, entries, o).0)
    {
      ghost var saved := SaveToKeyring(State(), root, entries, o).0;
      var previous := Previous(FileAt(State(), root.path), o);
      failed := SetThenDelete(root.service, previous, entries, o);
      if failed.None? {
        if !o(WriteIndex).Works? {
          failed := Some(WriteFailed);
        } else {
          files := files[root.path := IndexJson(NewIndex(root.service, entries.Keys))];
        }
      }
      AlikeAfter(old(State()), State(), saved, root.service, Vault(root.service));
    }

    method SaveAuth(root: Root, usesKeychain: bool, entries: map<string, Entry>, o: Oracle)
        returns (failed: Option<SaveError>)
      modifies this
      ensures failed == Save(old(State()), root, usesKeychain, entries, o).1
      ensures Alike(State(), Save(old(State()), root, usesKeychain, entries, o).0)
    {
      if usesKeychain {
        failed := SaveKeyringAuth(root, entries, o);
      } else if !o(WriteClear).Works? {
        failed := Some(WriteFailed);
      } else {
        files := files[root.path := ClearText(entries, true)];
        failed := None;
      }
    }

    method AdoptUnscopedCredentials(service: string, providers: seq<string>, o: Oracle)
        returns (failed: Option<LoadError>)
      modifies this`vaults
      ensures (Vault(service), failed) == AdoptFrom(old(Vault(service)), old(Vault(SHARED_SERVICE)), providers, 0, o)
      ensures OthersSame(old(State()), State(), service)
    {
      ghost var held, shared := Vault(service), Vault(SHARED_SERVICE);
      for i := 0 to |providers|
        invariant AdoptFrom(held, shared, providers, 0, o) == AdoptFrom(Vault(service), shared, providers, i, o)
        invariant Vault(SHARED_SERVICE) == shared
        invariant OthersSame(old(State()), State(), service)
      {
        var p := providers[i];
        if !o(GetOwn(i)).Works? {
          return Some(StoreDenied(p));
        }
        if p in Vault(service) {
          continue;
        }
        if !o(GetShared(i)).Works? {
          return Some(StoreDenied(p));
        }
        if p in Vault(SHARED_SERVICE) {
          var ok := SetSecret(service, p, Vault(SHARED_SERVICE)[p], o(Adopt(i)));
          if !ok {
            return Some(AdoptionFailed(p));
          }
        }
      }
      failed := None;
    }

    /** Only reads the store. */
    method LoadKeyringAuth(service: string, providers: seq<string>, missingSignsOut: bool, o: Oracle)
      returns (r: Result<map<string, Entry>, LoadError>)
      ensures r == LoadFrom(Vault(service), providers, 0, missingSignsOut, map[], o)
    {
      var entries: map<string, Entry> := map[];
      for i := 0 to |providers|
        invariant LoadFrom(Vault(service), providers, 0, missingSignsOut, map[], o) ==
          LoadFrom(Vault(service), providers, i, missingSignsOut, entries, o)
      {
        var p := providers[i];
        if !o(Get(i)).Works? {
          return Err(StoreDenied(p));
        }
        if p in Vault(service) {
          match Vault(service)[p] {
            case Undecodable => return Err(NotDecodable(p));
            case Encoded(entry) => entries := entries[p := entry];
          }
        } else if !missingSignsOut {
          return Err(NotHeld(p));
        }
      }
      r := Ok(entries);
    }

    method AdoptForIndex(service: string, index: Index, o: Oracle) returns (failed: Option<LoadError>)
      modifies this`vaults
      ensures (Vault(service), failed) == AdoptFor(old(Vault(service)), old(Vault(SHARED_SERVICE)), index, o)
      ensures OthersSame(old(State()), State(), service)
    {
      failed := None;
      if index.version == 1 && index.scope.None? {
        failed := AdoptUnscopedCredentials(service, index.providers, o);
      }
    }

    method LoadKeyringAuthForRoot(root: Root, index: Index, missingSignsOut: bool, o: Oracle)
      returns (r: Result<map<string, Entry>, LoadError>)
      modifies this
      ensures r == LoadForRoot(old(State()), root, index, missingSignsOut, o).1
      ensures Alike(State(), LoadForRoot(old(State()), root, index, missingSignsOut, o).0)
    {
      ghost var world := LoadForRoot(State(), root, index, missingSignsOut, o).0;
      var legacy := index.version == 1 && index.scope.None?;
      if !legacy && index.scope != Some(root.service) {
        return Err(OtherRoot);
      }
      var notAdopted := AdoptForIndex(root.service, index, o);
      if notAdopted.Some? {
        r := Err(notAdopted.value);
      } else {
        r := LoadKeyringAuth(root.service, index.providers, missingSignsOut, o);
        if r.Ok? && legacy {
          if !o(WriteMigrated).Works? {
            r := Err(IndexNotWritten);
          } else {
            files := files[root.path := IndexJson(index.(version := INDEX_VERSION, scope := Some(root.service)))];
          }
        }
      }
      if legacy {
        AlikeAfter(old(State()), State(), world, root.service, Vault(root.service));
      }
    }

    method LoadAuth(root: Root, usesKeychain: bool, o: Oracle) returns (r: Result<map<string, Entry>, LoadError>)
      modifies this
      ensures r == Load(old(State()), root, usesKeychain, o).1
      ensures Alike(State(), Load(old(State()), root, usesKeychain, o).0)
    {
      var file := FileAt(State(), root.path);
      if file.Absent? {
        return Ok(map[]);
      }
      if !o(ReadFile).Works? {
        return Err(FileUnreadable);
      }
      var index := ParseIndex(file);
      if index.Some? {
        r := LoadKeyringAuthForRoot(root, index.value, !usesKeychain, o);
        ghost var loaded := LoadForRoot(old(State()), root, index.value, !usesKeychain, o).0;
        if !usesKeychain && r.Ok? {
          SaveRespectsAlike(State(), loaded, root, r.value, o);
          var notSaved := SaveAuth(root, false, r.value, o);
          if notSaved.Some? {
            r := Err(NotSaved(notSaved.value));
          }
        }
        return;
      }
      if !file.ClearText? {
        return Err(FileUnreadable);
      }
      if !file.ownerOnly {
        return Err(FileExposed);
      }
      r := Ok(file.entries);
      if usesKeychain {
        var notSaved := SaveKeyringAuth(root, file.entries, o);
        if notSaved.Some? {
          r := Err(NotSaved(notSaved.value));
        }
      }
    }
  }
}
