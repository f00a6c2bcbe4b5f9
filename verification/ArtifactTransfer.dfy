/** Uploading and downloading artifacts over a network that loses requests and replies, while other peers
    use the registry and the registry restarts. */
module ArtifactTransfer {
  import opened Common
  import opened Persistence
  import opened ArtifactStore

  // ---------------------------------------------------------------- the registry's side

  class NetworkArtifacts {
    const h: Hashes
    const agents: map<Name, PeerId>
    const clients: map<Name, PeerId>
    var entries: map<ArtifactId, Entry>
    var copy: Copy<map<ArtifactId, Entry>>
    var files: map<ArtifactId, Bytes>

    function View(): Store
      reads this
    {
      Store(entries, copy, files, agents, clients)
    }

    constructor (h: Hashes, s: Store)
      ensures this.h == h && agents == s.agents && clients == s.clients
      ensures entries == s.entries
      ensures copy == s.copy
      ensures files == s.files
    {
      this.h, this.agents, this.clients := h, s.agents, s.clients;
      this.entries, this.copy, this.files := s.entries, s.copy, s.files;
    }

    method PersistIndex(save: Save) returns (ok: bool)
      modifies this`copy
      ensures ok == save.Complete? && copy == Persist(old(copy), entries, save)
    {
      copy := Persist(copy, entries, save);
      ok := save.Complete?;
    }

    method RegisterArtifact(peer: PeerId, r: Request, save: Save) returns (reply: Reply)
      requires r.Register?
      modifies this
      ensures (View(), reply) == DoRegister(h, old(View()), peer, r, save)
    {
      if r.job !in agents || agents[r.job] != peer { return Failed("artifact_access_denied"); }
      if r.total == 0 || !h.acceptable(r.name, r.media, r.sha) { return Failed("invalid_artifact_metadata"); }
      var id := h.name(r.job, r.name, r.sha);
      var people := {peer} + (if r.job in clients then {clients[r.job]} else {});
      var meta := Metadata(id, r.job, r.name, r.media, r.total, r.sha);
      if id in entries {
        entries := entries[id := entries[id].(participants := entries[id].participants + people)];
      } else {
        entries := entries[id := Entry(meta, people, 0, false)];
      }
      var ok := PersistIndex(save);
      reply := if ok then Registered(meta) else Failed("persistence_failed");
    }

    method WriteArtifact(peer: PeerId, w: Request, fault: Fault, save: Save) returns (reply: Reply)
      requires w.Write?
      modifies this
      ensures (View(), reply) == DoWrite(h, old(View()), peer, w, fault, save)
    {
      if w.id !in entries { return Failed("unknown_artifact"); }
      var e := entries[w.id];
      if peer !in e.participants { return Failed("artifact_access_denied"); }
      if w.total != e.meta.total || w.sha != e.meta.sha { return Failed("artifact_metadata_mismatch"); }
      if w.bytes == [] || |w.bytes| > CHUNK || w.offset + |w.bytes| > w.total { return Failed("invalid_chunk_length"); }
      if h.sha(w.bytes) != w.chunkSha { return Failed("chunk_hash_mismatch"); }
      if w.offset < e.confirmed {
        var end := w.offset + |w.bytes|;
        if end > e.confirmed { return Failed("invalid_offset"); }
        var file := FileOf(View(), w.id);
        if fault.Broken? || end > |file| || file[w.offset..end] != w.bytes { return Failed("chunk_conflict"); }
        var ok := PersistIndex(save);
        return if ok then Confirmed(e.confirmed) else Failed("persistence_failed");
      }
      if w.offset != e.confirmed { return Failed("invalid_offset"); }
      reply := Append(w, fault, save);
    }

    /** Writes the chunk behind the confirmed bytes, then publishes or cuts off. */
    method Append(w: Request, fault: Fault, save: Save) returns (reply: Reply)
      requires w.Write? && w.id in entries
      modifies this
      ensures (View(), reply) == AppendChunk(h, old(View()), w, fault, save)
    {
      var kept := Prefix(FileOf(View(), w.id), w.offset);
      if fault.Broken? {
        files := files[w.id := kept + fault.tail];
        return Failed("artifact_io");
      }
      var e := entries[w.id];
      var next := e.confirmed + |w.bytes|;
      if next == e.meta.total && h.sha(kept + w.bytes) != e.meta.sha {
        files := files[w.id := kept];
        return Failed("artifact_hash_mismatch");
      }
      files := files[w.id := kept + w.bytes];
      e := e.(confirmed := next);
      if next == e.meta.total { e := e.(published := true); }
      entries := entries[w.id := e];
      var ok := PersistIndex(save);
      reply := if ok then Confirmed(next) else Failed("persistence_failed");
    }

    method Handle(peer: PeerId, request: Request, fault: Fault, save: Save) returns (reply: Reply)
      modifies this
      ensures (View(), reply) == Apply(h, old(View()), Ask(peer, request, fault, save))
    {
      match request
      case Register(_, _, _, _, _) => reply := RegisterArtifact(peer, request, save);
      case Write(_, _, _, _, _, _) => reply := WriteArtifact(peer, request, fault, save);
      case Info(id) => reply := DoInfo(View(), peer, id);
      case Read(_, _, _, _, _) =>
        reply := if fault.Broken? then Failed("artifact_io") else DoRead(View(), peer, request);
    }

    /** Whatever happens at the registry between two of our calls. */
    method Serve(steps: seq<Step>)
      modifies this
      ensures View() == Run(h, old(View()), steps)
    {
      var i := 0;
      while i < |steps|
        invariant i <= |steps| && Run(h, old(View()), steps) == Run(h, View(), steps[i..])
      {
        assert steps[i..][1..] == steps[i + 1..];
        match steps[i] {
          case Restart => entries := Held(copy);
          case Ask(peer, request, fault, save) => var _ := Handle(peer, request, fault, save);
        }
        i := i + 1;
      }
    }
  }

  // ---------------------------------------------------------------- the network

  datatype RpcError = InvalidAddress | ConnectUnavailable | Tls | Io | ResponseTimeout | Protocol

  /** The errors after which an idempotent call is repeated. */
  predicate Transient(e: RpcError) {
    e.ConnectUnavailable? || e.ResponseTimeout?
  }

  datatype Fate = Delivered | NotExecuted(error: RpcError) | Unanswered(error: RpcError)

  /** One call: what others do first, whether our request arrives, whether its reply does. */
  datatype Turn = Turn(before: seq<Step>, fate: Fate, fault: Fault, save: Save)

  const CLEAN_TURN := Turn([], Delivered, Healthy, SAVED)

  datatype Answer = Answered(reply: Reply) | Lost(error: RpcError)

  function Exchange(h: Hashes, s: Store, turn: Turn, peer: PeerId, request: Request): (Store, Answer) {
    var s1 := Run(h, s, turn.before);
    var (s2, reply) := Apply(h, s1, Ask(peer, request, turn.fault, turn.save));
    match turn.fate
    case Delivered => (s2, Answered(reply))
    case NotExecuted(error) => (s1, Lost(error))
    case Unanswered(error) => (s2, Lost(error))
  }

  function FirstTurn(script: seq<Turn>): Turn {
    if script == [] then CLEAN_TURN else script[0]
  }

  function RestOf(script: seq<Turn>): seq<Turn> {
    if script == [] then [] else script[1..]
  }

  /** The registry as one peer reaches it. `script` decides the fate of the calls to come; every theorem
      holds for all scripts. */
  class Wire {
    const server: NetworkArtifacts
    var script: seq<Turn>

    constructor (server: NetworkArtifacts, script: seq<Turn>)
      ensures this.server == server && this.script == script
    {
      this.server, this.script := server, script;
    }

    method Call(peer: PeerId, request: Request) returns (answer: Answer)
      modifies this, server
      ensures (server.View(), answer)
              == Exchange(server.h, old(server.View()), FirstTurn(old(script)), peer, request)
      ensures script == RestOf(old(script))
    {
      var turn := FirstTurn(script);
      script := RestOf(script);
      server.Serve(turn.before);
      match turn.fate
      case NotExecuted(error) => answer := Lost(error);
      case Delivered =>
        var reply := server.Handle(peer, request, turn.fault, turn.save);
        answer := Answered(reply);
      case Unanswered(error) =>
        var _ := server.Handle(peer, request, turn.fault, turn.save);
        answer := Lost(error);
    }
  }

  // ---------------------------------------------------------------- what an exchange guarantees

  /** The artifact on disk starts with `prefix`. */
  ghost predicate Uploaded(s: Store, id: ArtifactId, total: nat, sha: Digest, prefix: Bytes) {
    && id in Index(s) && Index(s)[id].meta.total == total && Index(s)[id].meta.sha == sha
    && |prefix| <= Index(s)[id].confirmed && |prefix| <= |FileOf(s, id)|
    && FileOf(s, id)[..|prefix|] == prefix
  }

  /** The registry has published exactly `content` under `id`, in memory and on disk. */
  ghost predicate PublishedAs(h: Hashes, s: Store, id: ArtifactId, content: Bytes) {
    && Uploaded(s, id, |content|, h.sha(content), content)
    && Index(s)[id].published && id in s.entries && s.entries[id].published
    && s.entries[id].meta == Index(s)[id].meta
  }

  lemma UploadedLasts(s: Store, s': Store, id: ArtifactId, total: nat, sha: Digest, prefix: Bytes)
    requires Lasting(s, s') && Uploaded(s, id, total, sha, prefix)
    ensures Uploaded(s', id, total, sha, prefix)
  {
    var n := Index(s)[id].confirmed;
    assert Extends(Index(s)[id], FileOf(s, id), Index(s')[id], FileOf(s', id));
    assert FileOf(s', id)[..n][..|prefix|] == FileOf(s', id)[..|prefix|];
    assert FileOf(s, id)[..n][..|prefix|] == FileOf(s, id)[..|prefix|];
  }

  lemma UploadedAll(h: Hashes, s: Store, id: ArtifactId, content: Bytes)
    requires StoreInv(h, s) && s.copy.careful && Uploaded(s, id, |content|, h.sha(content), content)
    ensures PublishedAs(h, s, id, content)
  {
    assert EntryInv(h, id, Index(s)[id], FileOf(s, id)) && EntryInv(h, id, s.entries[id], FileOf(s, id));
  }

  /** The client the job belongs to is a participant on disk. */
  ghost predicate MayRead(s: Store, id: ArtifactId, job: Name) {
    id in Index(s) && (job in s.clients ==> s.clients[job] in Index(s)[id].participants)
  }

  lemma MayReadLasts(s: Store, s': Store, id: ArtifactId, job: Name)
    requires Lasting(s, s') && MayRead(s, id, job)
    ensures MayRead(s', id, job)
  {
    assert Extends(Index(s)[id], FileOf(s, id), Index(s')[id], FileOf(s', id));
  }

  /** What an exchange leaves true as long as saves are careful: the store's invariant, everything on disk,
      and behind an answered write the bytes it acknowledged. */
  ghost predicate Sound(h: Hashes, s: Store, s': Store, request: Request, answer: Answer) {
    && (request.Register? && answer.Answered? && answer.reply.Registered? ==> request.total > 0)
    && (s'.copy.careful ==> s.copy.careful && Tells(h, s, s', request, answer))
  }

  ghost predicate Tells(h: Hashes, s: Store, s': Store, request: Request, answer: Answer) {
    && StoreInv(h, s') && Lasting(s, s')
    && (request.Register? && answer.Answered? && answer.reply.Registered? ==>
          MayRead(s', answer.reply.meta.id, request.job))
    && (request.Write? && answer.Answered? && answer.reply.Confirmed? ==>
          forall prefix | |prefix| == request.offset
                          && (request.offset > 0 ==> Uploaded(s, request.id, request.total, request.sha, prefix)) ::
            Uploaded(s', request.id, request.total, request.sha, prefix + request.bytes))
  }

  lemma RegisteredMayRead(h: Hashes, s: Store, peer: PeerId, request: Request, fault: Fault, save: Save)
    requires StoreInv(h, s) && request.Register?
    requires Apply(h, s, Ask(peer, request, fault, save)).1.Registered?
    requires Apply(h, s, Ask(peer, request, fault, save)).0.copy.careful
    ensures var (s', reply) := Apply(h, s, Ask(peer, request, fault, save));
            MayRead(s', reply.meta.id, request.job)
  {
    hide StoreInv, Held, Persist;
  }

  lemma WriteIsDurable(h: Hashes, s: Store, peer: PeerId, w: Request, fault: Fault, save: Save)
    requires StoreInv(h, s) && w.Write? && Apply(h, s, Ask(peer, w, fault, save)).1.Confirmed?
    requires Apply(h, s, Ask(peer, w, fault, save)).0.copy.careful
    ensures var (s', reply) := Apply(h, s, Ask(peer, w, fault, save));
            var end := w.offset + |w.bytes|;
            && w.id in Index(s') && Index(s')[w.id].meta.total == w.total && Index(s')[w.id].meta.sha == w.sha
            && end <= Index(s')[w.id].confirmed
            && end <= |FileOf(s', w.id)| && FileOf(s', w.id)[w.offset..end] == w.bytes
  {
    hide StoreInv, DoWrite;
    AckIsDurable(h, s, peer, w, fault, save);
  }

  lemma RegistersBytes(h: Hashes, s: Store, ask: Step)
    requires ask.Ask?
    ensures ask.request.Register? && Apply(h, s, ask).1.Registered? ==> ask.request.total > 0
  {
  }

  lemma ExchangeSound(h: Hashes, s: Store, turn: Turn, peer: PeerId, request: Request)
    requires s.copy.careful ==> StoreInv(h, s)
    ensures var (s', answer) := Exchange(h, s, turn, peer, request); Sound(h, s, s', request, answer)
  {
    hide StoreInv, Lasting, Apply, Run, MayRead, Uploaded;
    var (s', answer) := Exchange(h, s, turn, peer, request);
    var s1, ask := Run(h, s, turn.before), Ask(peer, request, turn.fault, turn.save);
    RegistersBytes(h, s1, ask);
    if s'.copy.careful {
      if !turn.fate.NotExecuted? { StepCareful(h, s1, ask); }
      RunCareful(h, s, turn.before);
      RunKeeps(h, s, turn.before);
      if !turn.fate.NotExecuted? {
        StepKeeps(h, s1, ask);
        LastingCompose(s, s1, s');
      }
      if request.Register? && answer.Answered? && answer.reply.Registered? {
        RegisteredMayRead(h, s1, peer, request, turn.fault, turn.save);
      }
      if request.Write? && answer.Answered? && answer.reply.Confirmed? {
        WriteIsDurable(h, s1, peer, request, turn.fault, turn.save);
        forall prefix | |prefix| == request.offset
                        && (request.offset > 0 ==> Uploaded(s, request.id, request.total, request.sha, prefix))
          ensures Uploaded(s', request.id, request.total, request.sha, prefix + request.bytes)
        {
          AckExtends(h, s, s', request, prefix);
        }
      }
    }
  }

  /** An acknowledged chunk extends the uploaded prefix. */
  lemma AckExtends(h: Hashes, s: Store, s': Store, w: Request, prefix: Bytes)
    requires Lasting(s, s') && w.Write? && |prefix| == w.offset
    requires w.offset > 0 ==> Uploaded(s, w.id, w.total, w.sha, prefix)
    requires var end := w.offset + |w.bytes|;
             && w.id in Index(s') && Index(s')[w.id].meta.total == w.total && Index(s')[w.id].meta.sha == w.sha
             && end <= Index(s')[w.id].confirmed
             && end <= |FileOf(s', w.id)| && FileOf(s', w.id)[w.offset..end] == w.bytes
    ensures Uploaded(s', w.id, w.total, w.sha, prefix + w.bytes)
  {
    if w.offset > 0 { UploadedLasts(s, s', w.id, w.total, w.sha, prefix); }
    var file, end := FileOf(s', w.id), w.offset + |w.bytes|;
    assert file[..end] == file[..w.offset] + file[w.offset..end];
  }

  lemma SoundCompose(h: Hashes, a: Store, b: Store, c: Store, request: Request, answer: Answer)
    requires b.copy.careful ==> a.copy.careful && Lasting(a, b)
    requires Sound(h, b, c, request, answer)
    ensures Sound(h, a, c, request, answer)
  {
    if c.copy.careful {
      LastingCompose(a, b, c);
      if request.Write? && answer.Answered? && answer.reply.Confirmed? {
        forall prefix | |prefix| == request.offset
                        && (request.offset > 0 ==> Uploaded(a, request.id, request.total, request.sha, prefix))
          ensures Uploaded(c, request.id, request.total, request.sha, prefix + request.bytes)
        {
          if request.offset > 0 { UploadedLasts(a, b, request.id, request.total, request.sha, prefix); }
        }
      }
    }
  }
}
