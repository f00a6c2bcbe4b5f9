/** The registry's artifact store: offset-checked appends, replays, publication, and what survives a restart. */
module ArtifactStore {
  import opened Common
  import opened Persistence
  import SnapshotFiles

  type Digest = Name
  type PeerId = Name
  type ArtifactId = Name

  const CHUNK: nat := 64 * 1024

  /** Hashing and naming are taken as given functions; nothing is assumed about collisions. */
  datatype Hashes = Hashes(
    sha: Bytes -> Digest,
    name: (Name, Name, Digest) -> ArtifactId,
    acceptable: (Name, Name, Digest) -> bool)

  datatype Metadata = Metadata(id: ArtifactId, job: Name, name: Name, media: Name, total: nat, sha: Digest)

  datatype Entry = Entry(meta: Metadata, participants: set<PeerId>, confirmed: nat, published: bool)

  /** `entries` is the index in memory, `copy` the one on disk; `files` are the partial files. */
  datatype Store = Store(
    entries: map<ArtifactId, Entry>,
    copy: Copy<map<ArtifactId, Entry>>,
    files: map<ArtifactId, Bytes>,
    agents: map<Name, PeerId>,
    clients: map<Name, PeerId>)

  /** The index a restart finds. */
  function Index(s: Store): map<ArtifactId, Entry> {
    Held(s.copy)
  }

  function FileOf(s: Store, id: ArtifactId): Bytes {
    if id in s.files then s.files[id] else []
  }

  datatype Request =
    | Register(job: Name, name: Name, media: Name, total: nat, sha: Digest)
    | Write(id: ArtifactId, offset: nat, total: nat, sha: Digest, chunkSha: Digest, bytes: Bytes)
    | Info(id: ArtifactId)
    | Read(id: ArtifactId, offset: nat, length: nat, total: nat, sha: Digest)

  datatype Reply =
    | Failed(code: string)
    | Registered(meta: Metadata)
    | Confirmed(confirmed: nat)
    | Described(meta: Metadata)
    | Chunk(offset: nat, bytes: Bytes)

  /** A failing file operation leaves arbitrary bytes after the confirmed ones. */
  datatype Fault = Healthy | Broken(tail: Bytes)

  function Saved(s: Store, save: Save, reply: Reply): (Store, Reply) {
    (s.(copy := Persist(s.copy, s.entries, save)), if save.Complete? then reply else Failed("persistence_failed"))
  }

  function DoRegister(h: Hashes, s: Store, peer: PeerId, r: Request, save: Save): (Store, Reply)
    requires r.Register?
  {
    if r.job !in s.agents || s.agents[r.job] != peer then (s, Failed("artifact_access_denied"))
    else if r.total == 0 || !h.acceptable(r.name, r.media, r.sha) then (s, Failed("invalid_artifact_metadata"))
    else
      var id := h.name(r.job, r.name, r.sha);
      var people := {peer} + (if r.job in s.clients then {s.clients[r.job]} else {});
      var meta := Metadata(id, r.job, r.name, r.media, r.total, r.sha);
      var entry := if id in s.entries
                   then s.entries[id].(participants := s.entries[id].participants + people)
                   else Entry(meta, people, 0, false);
      Saved(s.(entries := s.entries[id := entry]), save, Registered(meta))
  }

  function DoWrite(h: Hashes, s: Store, peer: PeerId, w: Request, fault: Fault, save: Save): (Store, Reply)
    requires w.Write?
  {
    if w.id !in s.entries then (s, Failed("unknown_artifact"))
    else
      var e := s.entries[w.id];
      var file := FileOf(s, w.id);
      var end := w.offset + |w.bytes|;
      if peer !in e.participants then (s, Failed("artifact_access_denied"))
      else if w.total != e.meta.total || w.sha != e.meta.sha then (s, Failed("artifact_metadata_mismatch"))
      else if w.bytes == [] || |w.bytes| > CHUNK || end > w.total then (s, Failed("invalid_chunk_length"))
      else if h.sha(w.bytes) != w.chunkSha then (s, Failed("chunk_hash_mismatch"))
      else if w.offset < e.confirmed then
        if end > e.confirmed then (s, Failed("invalid_offset"))
        else if fault.Healthy? && end <= |file| && file[w.offset..end] == w.bytes then
          Saved(s, save, Confirmed(e.confirmed))
        else (s, Failed("chunk_conflict"))
      else if w.offset != e.confirmed then (s, Failed("invalid_offset"))
      else AppendChunk(h, s, w, fault, save)
  }

  /** The append itself; a last chunk whose aggregate hash is wrong is cut off again. */
  function AppendChunk(h: Hashes, s: Store, w: Request, fault: Fault, save: Save): (Store, Reply)
    requires w.Write? && w.id in s.entries
  {
    var e := s.entries[w.id];
    var kept := Prefix(FileOf(s, w.id), w.offset);
    var end := e.confirmed + |w.bytes|;
    if fault.Broken? then (s.(files := s.files[w.id := kept + fault.tail]), Failed("artifact_io"))
    else
      var file := kept + w.bytes;
      if end == e.meta.total && h.sha(file) != e.meta.sha then
        (s.(files := s.files[w.id := kept]), Failed("artifact_hash_mismatch"))
      else
        var done := e.(confirmed := end, published := end == e.meta.total || e.published);
        Saved(s.(files := s.files[w.id := file], entries := s.entries[w.id := done]), save, Confirmed(end))
  }

  /** The first `n` bytes, or all if there are fewer. */
  function Prefix(b: Bytes, n: nat): (p: Bytes)
    ensures |p| <= n && p <= b
  {
    if n <= |b| then b[..n] else b
  }

  function DoRead(s: Store, peer: PeerId, r: Request): Reply
    requires r.Read?
  {
    if r.id !in s.entries then Failed("unknown_artifact")
    else
      var e := s.entries[r.id];
      if peer !in e.participants then Failed("artifact_access_denied")
      else if !e.published then Failed("artifact_not_published")
      else if r.total != e.meta.total || r.sha != e.meta.sha then Failed("artifact_metadata_mismatch")
      else if r.length == 0 || r.length > CHUNK || r.offset >= r.total then Failed("invalid_offset")
      else
        var n := if r.length < r.total - r.offset then r.length else r.total - r.offset;
        var file := FileOf(s, r.id);
        if r.offset + n <= |file| then Chunk(r.offset, file[r.offset..r.offset + n]) else Failed("artifact_io")
  }

  function DoInfo(s: Store, peer: PeerId, id: ArtifactId): Reply {
    if id !in s.entries then Failed("unknown_artifact")
    else if peer !in s.entries[id].participants then Failed("artifact_access_denied")
    else if !s.entries[id].published then Failed("artifact_not_published")
    else Described(s.entries[id].meta)
  }

  datatype Step =
    | Ask(peer: PeerId, request: Request, fault: Fault, save: Save)
    | Restart

  function Apply(h: Hashes, s: Store, step: Step): (Store, Reply) {
    match step
    case Restart => (s.(entries := Index(s)), Failed("registry_restarted"))
    case Ask(peer, request, fault, save) =>
      match request
      case Register(_, _, _, _, _) => DoRegister(h, s, peer, request, save)
      case Write(_, _, _, _, _, _) => DoWrite(h, s, peer, request, fault, save)
      case Info(id) => (s, DoInfo(s, peer, id))
      case Read(_, _, _, _, _) => (s, if fault.Broken? then Failed("artifact_io") else DoRead(s, peer, request))
  }

  function Run(h: Hashes, s: Store, steps: seq<Step>): Store
    decreases |steps|
  {
    if steps == [] then s else Run(h, Apply(h, s, steps[0]).0, steps[1..])
  }

  // ---------------------------------------------------------------- what every step keeps

  /** An entry never confirms more than it announces or more than its file holds; it is published exactly
      when it confirms everything, and then the content has the announced hash. */
  ghost predicate EntryInv(h: Hashes, id: ArtifactId, e: Entry, file: Bytes) {
    && e.meta.id == id && 1 <= e.meta.total
    && e.confirmed <= e.meta.total && e.confirmed <= |file|
    && (e.published <==> e.confirmed == e.meta.total)
    && (e.published ==> h.sha(file[..e.meta.total]) == e.meta.sha)
  }

  ghost predicate MemoryInv(h: Hashes, s: Store) {
    forall id | id in s.entries :: EntryInv(h, id, s.entries[id], FileOf(s, id))
  }

  /** The index a restart would find fits the files and is behind the one in memory. */
  ghost predicate DiskInv(h: Hashes, s: Store) {
    && (forall id | id in Index(s) :: EntryInv(h, id, Index(s)[id], FileOf(s, id)))
    && (forall id | id in Index(s) ::
          && id in s.entries && Index(s)[id].meta == s.entries[id].meta
          && Index(s)[id].participants <= s.entries[id].participants
          && Index(s)[id].confirmed <= s.entries[id].confirmed)
  }

  ghost predicate StoreInv(h: Hashes, s: Store) {
    MemoryInv(h, s) && (s.copy.careful ==> DiskInv(h, s))
  }

  /** Entry `e` has only grown into `e'`, and its confirmed bytes are the same. */
  ghost predicate Extends(e: Entry, file: Bytes, e': Entry, file': Bytes) {
    && e'.meta == e.meta && e.participants <= e'.participants
    && e.confirmed <= e'.confirmed && (e.published ==> e'.published)
    && e.confirmed <= |file| && e.confirmed <= |file'| && file'[..e.confirmed] == file[..e.confirmed]
  }

  /** Whatever was on disk stays on disk, byte for byte. */
  ghost predicate Lasting(s: Store, s': Store) {
    && (forall id | id in Index(s) ::
          id in Index(s') && Extends(Index(s)[id], FileOf(s, id), Index(s')[id], FileOf(s', id)))
    && s'.agents == s.agents && s'.clients == s.clients
  }

  /** Within one life of the process the same holds of everything confirmed in memory. */
  ghost predicate Growing(s: Store, s': Store) {
    forall id | id in s.entries ::
      id in s'.entries && Extends(s.entries[id], FileOf(s, id), s'.entries[id], FileOf(s', id))
  }

  /** What a request leaves: memory has grown, and so has the index on disk as long as saves are careful. */
  ghost predicate Grown(h: Hashes, s: Store, s': Store) {
    && MemoryInv(h, s') && Growing(s, s')
    && (s'.copy.careful ==> s.copy.careful && DiskInv(h, s') && Lasting(s, s'))
  }

  /** What is on disk is a shorter prefix of what is in memory, so it lasts as long. */
  lemma ShorterLasts(h: Hashes, id: ArtifactId, d: Entry, e: Entry, file: Bytes, e': Entry, file': Bytes)
    requires EntryInv(h, id, d, file) && EntryInv(h, id, e', file') && Extends(e, file, e', file')
    requires d.meta == e.meta && d.participants <= e.participants && d.confirmed <= e.confirmed
    ensures EntryInv(h, id, d, file') && Extends(d, file, d, file') && Extends(d, file, e', file')
  {
    assert file'[..e.confirmed][..d.confirmed] == file'[..d.confirmed];
    assert file[..e.confirmed][..d.confirmed] == file[..d.confirmed];
  }

  /** The index on disk is the old one or the one in memory. */
  lemma IndexKeeps(h: Hashes, s: Store, s': Store)
    requires MemoryInv(h, s) && DiskInv(h, s) && MemoryInv(h, s') && Growing(s, s')
    requires Index(s') == Index(s) || Index(s') == s'.entries
    requires s'.agents == s.agents && s'.clients == s.clients
    ensures DiskInv(h, s') && Lasting(s, s')
  {
    hide Held;
    forall id | id in Index(s)
      ensures EntryInv(h, id, Index(s)[id], FileOf(s', id))
      ensures Extends(Index(s)[id], FileOf(s, id), Index(s)[id], FileOf(s', id))
      ensures Extends(Index(s)[id], FileOf(s, id), s'.entries[id], FileOf(s', id))
    {
      ShorterLasts(h, id, Index(s)[id], s.entries[id], FileOf(s, id), s'.entries[id], FileOf(s', id));
    }
    hide EntryInv;
  }

  lemma SavedKeeps(h: Hashes, s: Store, s1: Store, save: Save, reply: Reply)
    requires StoreInv(h, s) && MemoryInv(h, s1) && Growing(s, s1)
    requires s1.copy == s.copy && s1.agents == s.agents && s1.clients == s.clients
    ensures Grown(h, s, Saved(s1, save, reply).0)
  {
    hide Held, Persist, EntryInv, Extends;
    var s' := Saved(s1, save, reply).0;
    if s'.copy.careful {
      hide MemoryInv, DiskInv, Lasting;
      assert MemoryInv(h, s') by { SameMemory(h, s1, s'); }
      IndexKeeps(h, s, s');
    }
  }

  lemma SameMemory(h: Hashes, s: Store, s': Store)
    requires MemoryInv(h, s) && s' == s.(copy := s'.copy)
    ensures MemoryInv(h, s')
  {
  }

  lemma SameEntry(h: Hashes, id: ArtifactId, e: Entry, file: Bytes)
    requires EntryInv(h, id, e, file)
    ensures Extends(e, file, e, file)
  {
  }

  lemma UnsavedKeeps(h: Hashes, s: Store, s': Store)
    requires StoreInv(h, s) && MemoryInv(h, s') && Growing(s, s')
    requires s'.copy == s.copy && s'.agents == s.agents && s'.clients == s.clients
    ensures Grown(h, s, s')
  {
    hide Held, EntryInv, Extends, MemoryInv, DiskInv, Lasting;
    if s'.copy.careful { IndexKeeps(h, s, s'); }
  }

  /** Replacing one entry and its file by grown ones. */
  lemma ReplaceGrows(h: Hashes, s: Store, id: ArtifactId, e': Entry, file': Bytes)
    requires StoreInv(h, s) && id in s.entries
    requires EntryInv(h, id, e', file') && Extends(s.entries[id], FileOf(s, id), e', file')
    ensures var s1 := s.(entries := s.entries[id := e'], files := s.files[id := file']);
            MemoryInv(h, s1) && Growing(s, s1)
  {
    var s1 := s.(entries := s.entries[id := e'], files := s.files[id := file']);
    forall k | k in s.entries ensures Extends(s.entries[k], FileOf(s, k), s1.entries[k], FileOf(s1, k)) {
      if k != id { SameEntry(h, k, s.entries[k], FileOf(s, k)); }
    }
  }

  lemma ReplaceKeeps(h: Hashes, s: Store, id: ArtifactId, e': Entry, file': Bytes, save: Save, reply: Reply)
    requires StoreInv(h, s) && id in s.entries
    requires EntryInv(h, id, e', file') && Extends(s.entries[id], FileOf(s, id), e', file')
    ensures var s1 := s.(entries := s.entries[id := e'], files := s.files[id := file']);
            Grown(h, s, Saved(s1, save, reply).0)
  {
    hide StoreInv, MemoryInv, Growing, Grown;
    ReplaceGrows(h, s, id, e', file');
    SavedKeeps(h, s, s.(entries := s.entries[id := e'], files := s.files[id := file']), save, reply);
  }

  /** A file operation that failed, or a last chunk cut off again, leaves the confirmed bytes alone. */
  lemma TailKeeps(h: Hashes, s: Store, id: ArtifactId, tail: Bytes)
    requires StoreInv(h, s) && id in s.entries
    ensures var s' := s.(files := s.files[id := FileOf(s, id)[..s.entries[id].confirmed] + tail]);
            Grown(h, s, s')
  {
    var e, file := s.entries[id], FileOf(s, id);
    var file' := file[..e.confirmed] + tail;
    assert file'[..e.confirmed] == file[..e.confirmed];
    ReplaceGrows(h, s, id, e, file');
    assert s.entries[id := e] == s.entries;
    UnsavedKeeps(h, s, s.(files := s.files[id := file']));
  }

  lemma AppendEntry(h: Hashes, id: ArtifactId, e: Entry, file: Bytes, bytes: Bytes)
    requires EntryInv(h, id, e, file) && bytes != [] && e.confirmed + |bytes| <= e.meta.total
    requires var file' := file[..e.confirmed] + bytes;
             e.confirmed + |bytes| == e.meta.total ==> h.sha(file') == e.meta.sha
    ensures var file', end := file[..e.confirmed] + bytes, e.confirmed + |bytes|;
            var e' := e.(confirmed := end, published := end == e.meta.total || e.published);
            EntryInv(h, id, e', file') && Extends(e, file, e', file')
  {
    var file', end := file[..e.confirmed] + bytes, e.confirmed + |bytes|;
    assert file'[..end] == file' && file'[..e.confirmed] == file[..e.confirmed];
  }

  /** The three ends of an append. */
  lemma AppendShape(h: Hashes, s: Store, w: Request, fault: Fault, save: Save)
    requires w.Write? && w.id in s.entries && w.offset == s.entries[w.id].confirmed <= |FileOf(s, w.id)|
    ensures var s' := AppendChunk(h, s, w, fault, save).0;
            var e, kept := s.entries[w.id], FileOf(s, w.id)[..w.offset];
            var end := w.offset + |w.bytes|;
            || (fault.Broken? && s' == s.(files := s.files[w.id := kept + fault.tail]))
            || s' == s.(files := s.files[w.id := kept + []])
            || (var e' := e.(confirmed := end, published := end == e.meta.total || e.published);
                s' == Saved(s.(files := s.files[w.id := kept + w.bytes], entries := s.entries[w.id := e']),
                            save, Confirmed(end)).0
                && (end == e.meta.total ==> h.sha(kept + w.bytes) == e.meta.sha))
  {
    assert FileOf(s, w.id)[..w.offset] + [] == FileOf(s, w.id)[..w.offset];
  }

  lemma AppendKeeps(h: Hashes, s: Store, w: Request, fault: Fault, save: Save)
    requires StoreInv(h, s) && w.Write? && w.id in s.entries && w.offset == s.entries[w.id].confirmed
    requires w.bytes != [] && w.offset + |w.bytes| <= s.entries[w.id].meta.total
    ensures var s' := AppendChunk(h, s, w, fault, save).0; Grown(h, s, s')
  {
    var e, file := s.entries[w.id], FileOf(s, w.id);
    assert EntryInv(h, w.id, e, file);
    AppendShape(h, s, w, fault, save);
    if fault.Broken? { TailKeeps(h, s, w.id, fault.tail); }
    TailKeeps(h, s, w.id, []);
    if w.offset + |w.bytes| == e.meta.total ==> h.sha(file[..w.offset] + w.bytes) == e.meta.sha {
      AppendEntry(h, w.id, e, file, w.bytes);
      ReplaceKeeps(h, s, w.id, e.(confirmed := w.offset + |w.bytes|,
                                  published := w.offset + |w.bytes| == e.meta.total || e.published),
                   file[..w.offset] + w.bytes, save, Confirmed(w.offset + |w.bytes|));
    }
    hide StoreInv, Grown, EntryInv, AppendChunk, Saved;
  }

  lemma StayKeeps(h: Hashes, s: Store, save: Save, reply: Reply)
    requires StoreInv(h, s)
    ensures Grown(h, s, s) && Grown(h, s, Saved(s, save, reply).0)
  {
    forall id | id in s.entries ensures Extends(s.entries[id], FileOf(s, id), s.entries[id], FileOf(s, id)) {
      SameEntry(h, id, s.entries[id], FileOf(s, id));
    }
    SavedKeeps(h, s, s, save, reply);
    UnsavedKeeps(h, s, s);
  }

  /** Nothing on disk changes. */
  lemma SameIndex(h: Hashes, s: Store, s': Store)
    requires StoreInv(h, s) && s.copy.careful && s' == s.(entries := s'.entries)
    ensures Lasting(s, s')
  {
    hide Held;
    forall id | id in Index(s) ensures Extends(Index(s)[id], FileOf(s, id), Index(s)[id], FileOf(s, id)) {
      SameEntry(h, id, Index(s)[id], FileOf(s, id));
    }
  }

  lemma WriteShape(h: Hashes, s: Store, peer: PeerId, w: Request, fault: Fault, save: Save)
    requires w.Write?
    ensures var s' := DoWrite(h, s, peer, w, fault, save).0;
            || s' == s
            || (w.id in s.entries && s' == Saved(s, save, Confirmed(s.entries[w.id].confirmed)).0)
            || (w.id in s.entries && w.offset == s.entries[w.id].confirmed && w.bytes != []
                && w.offset + |w.bytes| <= s.entries[w.id].meta.total && s' == AppendChunk(h, s, w, fault, save).0)
  {
    hide AppendChunk, Saved;
  }

  lemma WriteKeeps(h: Hashes, s: Store, peer: PeerId, w: Request, fault: Fault, save: Save)
    requires StoreInv(h, s) && w.Write?
    ensures var s' := DoWrite(h, s, peer, w, fault, save).0; Grown(h, s, s')
  {
    hide StoreInv, Grown, DoWrite, AppendChunk, Saved;
    WriteShape(h, s, peer, w, fault, save);
    StayKeeps(h, s, save, Confirmed(0));
    if w.id in s.entries {
      StayKeeps(h, s, save, Confirmed(s.entries[w.id].confirmed));
      if w.offset == s.entries[w.id].confirmed && w.bytes != [] && w.offset + |w.bytes| <= s.entries[w.id].meta.total {
        AppendKeeps(h, s, w, fault, save);
      }
    }
  }

  /** The store with one more entry, or with more people seeing an existing one. */
  function Enrolled(s: Store, meta: Metadata, people: set<PeerId>, save: Save): Store {
    var entry := if meta.id in s.entries
                 then s.entries[meta.id].(participants := s.entries[meta.id].participants + people)
                 else Entry(meta, people, 0, false);
    Saved(s.(entries := s.entries[meta.id := entry]), save, Registered(meta)).0
  }

  lemma EnrolKeeps(h: Hashes, s: Store, meta: Metadata, people: set<PeerId>, save: Save)
    requires StoreInv(h, s) && 1 <= meta.total
    ensures var s' := Enrolled(s, meta, people, save); Grown(h, s, s')
  {
    var id := meta.id;
    var entry := if id in s.entries then s.entries[id].(participants := s.entries[id].participants + people)
                 else Entry(meta, people, 0, false);
    var s1 := s.(entries := s.entries[id := entry]);
    forall k | k in s.entries ensures Extends(s.entries[k], FileOf(s, k), s1.entries[k], FileOf(s1, k)) {
      SameEntry(h, k, s.entries[k], FileOf(s, k));
    }
    SavedKeeps(h, s, s1, save, Registered(meta));
  }

  /** What registration does is enrol people, or nothing. */
  lemma RegisterShape(h: Hashes, s: Store, peer: PeerId, r: Request, save: Save)
    requires r.Register?
    ensures var s' := DoRegister(h, s, peer, r, save).0;
            var meta := Metadata(h.name(r.job, r.name, r.sha), r.job, r.name, r.media, r.total, r.sha);
            var people := {peer} + (if r.job in s.clients then {s.clients[r.job]} else {});
            s' == s || (r.total > 0 && s' == Enrolled(s, meta, people, save))
  {
  }

  lemma RegisterKeeps(h: Hashes, s: Store, peer: PeerId, r: Request, save: Save)
    requires StoreInv(h, s) && r.Register?
    ensures var s' := DoRegister(h, s, peer, r, save).0; Grown(h, s, s')
  {
    StayKeeps(h, s, save, Confirmed(0));
    RegisterShape(h, s, peer, r, save);
    hide StoreInv, Grown, DoRegister, Enrolled;
    if r.total > 0 {
      EnrolKeeps(h, s, Metadata(h.name(r.job, r.name, r.sha), r.job, r.name, r.media, r.total, r.sha),
                 {peer} + (if r.job in s.clients then {s.clients[r.job]} else {}), save);
    }
  }

  /** Every request, answered or not, keeps all confirmed bytes in memory, whatever becomes of the save, and
      all bytes on disk if the save is careful. */
  lemma AskKeeps(h: Hashes, s: Store, step: Step)
    requires StoreInv(h, s) && step.Ask?
    ensures Grown(h, s, Apply(h, s, step).0)
  {
    hide StoreInv, Grown, DoRegister, DoWrite, Saved;
    StayKeeps(h, s, step.save, Confirmed(0));
    if step.request.Register? { RegisterKeeps(h, s, step.peer, step.request, step.save); }
    else if step.request.Write? { WriteKeeps(h, s, step.peer, step.request, step.fault, step.save); }
  }

  /** So does a restart, from an index whose saves have been careful. */
  lemma StepKeeps(h: Hashes, s: Store, step: Step)
    requires StoreInv(h, s) && Apply(h, s, step).0.copy.careful
    ensures var s' := Apply(h, s, step).0; s.copy.careful && StoreInv(h, s') && Lasting(s, s')
  {
    if step.Restart? { hide Held; SameIndex(h, s, s.(entries := Index(s))); }
    else {
      hide Apply, MemoryInv, Growing, DiskInv, Lasting;
      AskKeeps(h, s, step);
    }
  }

  lemma ExtendsCompose(a: Entry, f: Bytes, b: Entry, g: Bytes, c: Entry, h: Bytes)
    requires Extends(a, f, b, g) && Extends(b, g, c, h)
    ensures Extends(a, f, c, h)
  {
    assert h[..b.confirmed][..a.confirmed] == h[..a.confirmed];
    assert g[..b.confirmed][..a.confirmed] == g[..a.confirmed];
  }

  lemma LastingCompose(a: Store, b: Store, c: Store)
    requires Lasting(a, b) && Lasting(b, c)
    ensures Lasting(a, c)
  {
    hide Extends, Held;
    forall id | id in Index(a)
      ensures id in Index(c) && Extends(Index(a)[id], FileOf(a, id), Index(c)[id], FileOf(c, id))
    {
      ExtendsCompose(Index(a)[id], FileOf(a, id), Index(b)[id], FileOf(b, id), Index(c)[id], FileOf(c, id));
    }
  }

  lemma GrowingCompose(a: Store, b: Store, c: Store)
    requires Growing(a, b) && Growing(b, c)
    ensures Growing(a, c)
  {
    hide Extends;
    forall id | id in a.entries
      ensures id in c.entries && Extends(a.entries[id], FileOf(a, id), c.entries[id], FileOf(c, id))
    {
      ExtendsCompose(a.entries[id], FileOf(a, id), b.entries[id], FileOf(b, id), c.entries[id], FileOf(c, id));
    }
  }

  /** Within one life of the process confirmed bytes never change and published artifacts stay so, whichever
      saves and file operations fail, and wherever they stop. */
  lemma {:induction false} LifeKeeps(h: Hashes, s: Store, steps: seq<Step>)
    requires StoreInv(h, s) && (forall step | step in steps :: step.Ask?)
    ensures StoreInv(h, Run(h, s, steps)) && Growing(s, Run(h, s, steps))
    decreases |steps|
  {
    if steps == [] { StayKeeps(h, s, NOT_SAVED, Confirmed(0)); }
    else {
      hide Apply, MemoryInv, Growing, DiskInv, Lasting;
      assert steps[0].Ask?;
      AskKeeps(h, s, steps[0]);
      LifeKeeps(h, Apply(h, s, steps[0]).0, steps[1..]);
      GrowingCompose(s, Apply(h, s, steps[0]).0, Run(h, s, steps));
    }
  }

  /** Saves have been careful all along if they have been up to now. */
  lemma StepCareful(h: Hashes, s: Store, step: Step)
    requires Apply(h, s, step).0.copy.careful
    ensures s.copy.careful
  {
    hide Persist, Held;
    if step.Ask? && step.request.Register? { RegisterShape(h, s, step.peer, step.request, step.save); }
    if step.Ask? && step.request.Write? { WriteShape(h, s, step.peer, step.request, step.fault, step.save); }
    hide DoRegister, DoWrite;
  }

  lemma {:induction false} RunCareful(h: Hashes, s: Store, steps: seq<Step>)
    requires Run(h, s, steps).copy.careful
    ensures s.copy.careful
    decreases |steps|
  {
    hide Apply;
    if steps != [] {
      RunCareful(h, Apply(h, s, steps[0]).0, steps[1..]);
      StepCareful(h, s, steps[0]);
    }
  }

  /** Over every run whose saves are careful: whoever asks what, whichever saves and file operations fail, and
      however often the registry restarts, bytes that were confirmed on disk never change and published
      artifacts stay so. */
  lemma {:induction false} RunKeeps(h: Hashes, s: Store, steps: seq<Step>)
    requires StoreInv(h, s) && Run(h, s, steps).copy.careful
    ensures s.copy.careful && StoreInv(h, Run(h, s, steps)) && Lasting(s, Run(h, s, steps))
    decreases |steps|
  {
    if steps == [] { StayKeeps(h, s, NOT_SAVED, Confirmed(0)); }
    else {
      hide Apply, MemoryInv, DiskInv, Lasting, Held;
      RunCareful(h, Apply(h, s, steps[0]).0, steps[1..]);
      StepKeeps(h, s, steps[0]);
      RunKeeps(h, Apply(h, s, steps[0]).0, steps[1..]);
      LastingCompose(s, Apply(h, s, steps[0]).0, Run(h, s, steps));
    }
  }

  /** An answered write: the acknowledged end is covered by the index that was saved, and the bytes are there. */
  lemma AckIsSaved(h: Hashes, s: Store, peer: PeerId, w: Request, fault: Fault, save: Save)
    requires StoreInv(h, s) && w.Write? && DoWrite(h, s, peer, w, fault, save).1.Confirmed?
    ensures var (s', reply) := DoWrite(h, s, peer, w, fault, save);
            var end := w.offset + |w.bytes|;
            && save.Complete? && s'.copy == Persist(s.copy, s'.entries, save)
            && w.id in s'.entries && s'.entries[w.id].meta.total == w.total && s'.entries[w.id].meta.sha == w.sha
            && end <= reply.confirmed == s'.entries[w.id].confirmed
            && end <= |FileOf(s', w.id)| && FileOf(s', w.id)[w.offset..end] == w.bytes
  {
    assert s.entries[w.id].confirmed <= |FileOf(s, w.id)| by {
      assert EntryInv(h, w.id, s.entries[w.id], FileOf(s, w.id));
    }
    hide StoreInv, Held, Persist, AppendChunk;
    if w.offset == s.entries[w.id].confirmed && AppendChunk(h, s, w, fault, save).1.Confirmed? {
      AppendIsSaved(h, s, w, fault, save);
    }
  }

  lemma AppendIsSaved(h: Hashes, s: Store, w: Request, fault: Fault, save: Save)
    requires w.Write? && w.id in s.entries && w.offset == s.entries[w.id].confirmed <= |FileOf(s, w.id)|
    requires AppendChunk(h, s, w, fault, save).1.Confirmed?
    ensures var (s', reply) := AppendChunk(h, s, w, fault, save);
            var end := w.offset + |w.bytes|;
            && save.Complete? && s'.copy == Persist(s.copy, s'.entries, save)
            && w.id in s'.entries && s'.entries[w.id].meta == s.entries[w.id].meta
            && end == reply.confirmed == s'.entries[w.id].confirmed
            && end == |FileOf(s', w.id)| && FileOf(s', w.id)[w.offset..end] == w.bytes
  {
    hide Held, Persist;
    BehindPrefix(Prefix(FileOf(s, w.id), w.offset), w.bytes);
  }

  lemma BehindPrefix(kept: Bytes, bytes: Bytes)
    ensures (kept + bytes)[|kept|..|kept| + |bytes|] == bytes
  {
  }

  /** So it is on disk, if that save was careful and all before it. */
  lemma AckIsDurable(h: Hashes, s: Store, peer: PeerId, w: Request, fault: Fault, save: Save)
    requires StoreInv(h, s) && w.Write? && DoWrite(h, s, peer, w, fault, save).1.Confirmed?
    requires DoWrite(h, s, peer, w, fault, save).0.copy.careful
    ensures var (s', reply) := DoWrite(h, s, peer, w, fault, save);
            var end := w.offset + |w.bytes|;
            && w.id in Index(s') && Index(s')[w.id].meta.total == w.total && Index(s')[w.id].meta.sha == w.sha
            && end <= reply.confirmed == Index(s')[w.id].confirmed
            && end <= |FileOf(s', w.id)| && FileOf(s', w.id)[w.offset..end] == w.bytes
  {
    hide StoreInv, DoWrite, Held, Persist;
    AckIsSaved(h, s, peer, w, fault, save);
  }

  // ---------------------------------------------------------------- without careful saves

  /** Careful saves are needed. Where the last save of the index stopped with the main file retired, a
      registration whose save stops after emptying `.next` brings the index before it back: what the last one
      had added is no longer on disk. */
  lemma OlderIndexReturns(h: Hashes, s: Store, saves: seq<map<ArtifactId, Entry>>, id: ArtifactId, peer: PeerId,
                          r: Request)
    requires 0 < |saves| < U64_MAX - 1
    requires s.copy == Persist(SavedAll(map[], saves), s.entries, SnapshotFiles.MainRetired)
    requires var older := saves[|saves| - 1];
             MemoryInv(h, s) && id in s.entries && (id !in older || older[id].confirmed < s.entries[id].confirmed)
    requires r.Register? && r.total > 0 && h.acceptable(r.name, r.media, r.sha)
    requires r.job in s.agents && s.agents[r.job] == peer
    ensures var s' := Apply(h, s, Ask(peer, r, Healthy, SnapshotFiles.Truncated)).0;
            && s.copy.careful && StoreInv(h, s) && Index(s) == s.entries
            && Index(s') == saves[|saves| - 1] && !Lasting(s, s') && !s'.copy.careful
  {
    hide Held, Persist, SavedAll;
    var s' := Apply(h, s, Ask(peer, r, Healthy, SnapshotFiles.Truncated)).0;
    OlderSaveReturns(map[], saves, s.entries, s'.entries);
  }

  /** A store that has served nobody yet. */
  function NewStore(agents: map<Name, PeerId>, clients: map<Name, PeerId>): Store {
    Store(map[], NothingSaved(map[]), map[], agents, clients)
  }

  /** An artifact of one chunk is registered and written, and the registry restarts. The save of the index
      after the write stops with the main file retired. */
  function UploadRun(h: Hashes, peer: PeerId, r: Request, content: Bytes): seq<Step>
    requires r.Register?
  {
    var id := h.name(r.job, r.name, r.sha);
    [Ask(peer, r, Healthy, SAVED),
     Ask(peer, Write(id, 0, r.total, r.sha, h.sha(content), content), Healthy, SnapshotFiles.MainRetired),
     Restart]
  }

  /** The entry of the uploaded artifact. */
  function Upload(h: Hashes, peer: PeerId, r: Request, clients: map<Name, PeerId>, confirmed: nat): Entry
    requires r.Register?
  {
    Entry(Metadata(h.name(r.job, r.name, r.sha), r.job, r.name, r.media, r.total, r.sha),
          {peer} + (if r.job in clients then {clients[r.job]} else {}), confirmed, confirmed == r.total)
  }

  /** What that run leads to. */
  function UploadedStore(h: Hashes, peer: PeerId, r: Request, content: Bytes, agents: map<Name, PeerId>,
                    clients: map<Name, PeerId>): Store
    requires r.Register?
  {
    var id := h.name(r.job, r.name, r.sha);
    var entries := map[id := Upload(h, peer, r, clients, r.total)];
    var copy := SavedAll(map[], [map[id := Upload(h, peer, r, clients, 0)]]);
    Store(entries, Persist(copy, entries, SnapshotFiles.MainRetired), map[id := content], agents, clients)
  }

  lemma UploadIsReached(h: Hashes, peer: PeerId, r: Request, content: Bytes, agents: map<Name, PeerId>,
                        clients: map<Name, PeerId>)
    requires r.Register? && 0 < r.total == |content| <= CHUNK && r.sha == h.sha(content)
    requires h.acceptable(r.name, r.media, r.sha) && r.job in agents && agents[r.job] == peer
    ensures Run(h, NewStore(agents, clients), UploadRun(h, peer, r, content))
            == UploadedStore(h, peer, r, content, agents, clients)
  {
    hide Held, Persist, SavedAll;
    var id, s, run := h.name(r.job, r.name, r.sha), NewStore(agents, clients), UploadRun(h, peer, r, content);
    var before, after := map[id := Upload(h, peer, r, clients, 0)], map[id := Upload(h, peer, r, clients, r.total)];
    SavedNothing<map<ArtifactId, Entry>>(map[]);
    SavedMore(map[], [], before, [before]);
    OlderSaveReturns(map[], [before], after, after);
    var s1 := s.(entries := before, copy := SavedAll(map[], [before]));
    assert Apply(h, s, run[0]).0 == s1;
    var s2 := UploadedStore(h, peer, r, content, agents, clients);
    WritesWhole(h, s1, peer, id, content, SnapshotFiles.MainRetired);
    assert before[id := after[id]] == after;
    assert Apply(h, s1, run[1]).0 == s2;
    assert Apply(h, s2, run[2]).0 == s2;
    hide Apply;
    assert run[1..] == [run[1], run[2]] && run[1..][1..] == [run[2]] && [run[2]][1..] == [];
    assert Run(h, s2, [run[2]]) == s2;
    assert Run(h, s1, [run[1], run[2]]) == s2;
  }

  /** One chunk that is the whole content publishes it. */
  lemma WritesWhole(h: Hashes, s: Store, peer: PeerId, id: ArtifactId, content: Bytes, save: Save)
    requires id in s.entries && s.files == map[] && peer in s.entries[id].participants
    requires var e := s.entries[id];
             e.meta.total == |content| && e.meta.sha == h.sha(content) && e.confirmed == 0
    requires 0 < |content| <= CHUNK
    ensures var write := Write(id, 0, |content|, h.sha(content), h.sha(content), content);
            var entries := s.entries[id := s.entries[id].(confirmed := |content|, published := true)];
            Apply(h, s, Ask(peer, write, Healthy, save)).0
            == s.(entries := entries, files := map[id := content], copy := Persist(s.copy, entries, save))
  {
    hide Held, Persist;
    assert Prefix(FileOf(s, id), 0) + content == content;
  }

  /** A published artifact is forgotten: it was on disk whole, and after one careless save it is not even begun. */
  lemma UploadIsForgotten(h: Hashes, peer: PeerId, r: Request, content: Bytes, agents: map<Name, PeerId>,
                          clients: map<Name, PeerId>)
    requires r.Register? && 0 < r.total == |content| <= CHUNK && r.sha == h.sha(content)
    requires h.acceptable(r.name, r.media, r.sha) && r.job in agents && agents[r.job] == peer
    ensures var id := h.name(r.job, r.name, r.sha);
            var s := Run(h, NewStore(agents, clients), UploadRun(h, peer, r, content));
            var s' := Apply(h, s, Ask(peer, r, Healthy, SnapshotFiles.Truncated)).0;
            && StoreInv(h, s) && s.copy.careful && id in Index(s) && Index(s)[id].published
            && !Lasting(s, s') && id in Index(s') && Index(s')[id].confirmed == 0
  {
    hide Held, Persist, SavedAll, Run, Apply;
    var id, s := h.name(r.job, r.name, r.sha), UploadedStore(h, peer, r, content, agents, clients);
    UploadIsReached(h, peer, r, content, agents, clients);
    assert content[..r.total] == content;
    OlderIndexReturns(h, s, [map[id := Upload(h, peer, r, clients, 0)]], id, peer, r);
  }
}
