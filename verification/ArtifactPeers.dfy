/** The two ends of an artifact transfer: the agent that publishes and the client that downloads. */
module ArtifactPeers {
  import opened Common
  import opened Persistence
  import opened ArtifactStore
  import opened ArtifactTransfer

  // ---------------------------------------------------------------- fair scripts, for progress

  /** Nobody interferes, nothing breaks, and whatever is lost is lost in a way that is retried. */
  predicate Calm(t: Turn) {
    t.before == [] && t.fault.Healthy? && t.save.Complete? && (t.fate.Delivered? || Transient(t.fate.error))
  }

  /** Of any three calls in a row one gets through. */
  ghost predicate Fair(script: seq<Turn>) {
    && (forall i | 0 <= i < |script| :: Calm(script[i]))
    && (forall i | 0 <= i < |script| - 2 ::
          script[i].fate.Delivered? || script[i + 1].fate.Delivered? || script[i + 2].fate.Delivered?)
  }

  lemma FairRest(script: seq<Turn>)
    requires Fair(script)
    ensures Fair(RestOf(script)) && Calm(FirstTurn(script))
  {
    if script != [] {
      var rest := RestOf(script);
      assert forall i | 0 <= i < |rest| :: rest[i] == script[i + 1];
    }
  }

  /** The store after the same request has been executed `k` times. */
  function Times(h: Hashes, s: Store, step: Step, k: nat): Store {
    if k == 0 then s else Apply(h, Times(h, s, step, k - 1), step).0
  }

  lemma CalmExchange(h: Hashes, s: Store, turn: Turn, peer: PeerId, request: Request)
    requires Calm(turn)
    ensures var (s', answer) := Exchange(h, s, turn, peer, request);
            var (t, reply) := Apply(h, s, Ask(peer, request, Healthy, SAVED));
            && (turn.fate.Delivered? ==> s' == t && answer == Answered(reply))
            && (!turn.fate.Delivered? ==> (s' == s || s' == t) && answer.Lost? && Transient(answer.error))
  {
  }

  /** One of the next `n` calls of a fair script gets through. */
  ghost predicate Soon(script: seq<Turn>, n: nat) {
    |script| < n || exists i | 0 <= i < n :: script[i].fate.Delivered?
  }

  // ---------------------------------------------------------------- retries

  /** Repeats a call up to three times while it is lost to an unreachable registry or a missing answer.
      On a fair script an answer always comes, to the last of one or more executions (`runs` + 1 in all). */
  method Retry(wire: Wire, peer: PeerId, request: Request) returns (answer: Answer, ghost runs: nat)
    requires wire.server.View().copy.careful ==> StoreInv(wire.server.h, wire.server.View())
    modifies wire, wire.server
    ensures Sound(wire.server.h, old(wire.server.View()), wire.server.View(), request, answer)
    ensures |old(wire.script)| <= |wire.script| + 3
    ensures Fair(old(wire.script)) ==>
              && Fair(wire.script) && answer.Answered?
              && var step := Ask(peer, request, Healthy, SAVED);
                 (wire.server.View(), answer.reply)
                 == Apply(wire.server.h, Times(wire.server.h, old(wire.server.View()), step, runs), step)
  {
    hide StoreInv, Lasting, Apply, Exchange, Run, Sound, Fair, Calm, Soon;
    ghost var h, start, script := wire.server.h, wire.server.View(), wire.script;
    ghost var step := Ask(peer, request, Healthy, SAVED);
    StillKept(h, start);
    runs := 0;
    if Fair(script) { FairSoon(script); }
    var attempt := 0;
    while true
      invariant 0 <= attempt <= 2 && |script| <= |wire.script| + attempt
      invariant Kept(h, start, wire.server.View())
      invariant Fair(script) ==>
                  && Fair(wire.script) && Soon(wire.script, 3 - attempt)
                  && wire.server.View() == Times(h, start, step, runs)
      decreases 2 - attempt
    {
      ghost var before, turns := wire.server.View(), wire.script;
      ExchangeSound(h, before, FirstTurn(turns), peer, request);
      answer := wire.Call(peer, request);
      SoundCompose(h, start, before, wire.server.View(), request, answer);
      SoundIsKept(h, start, wire.server.View(), request, answer);
      if Fair(script) {
        FairRest(turns);
        CalmExchange(h, before, FirstTurn(turns), peer, request);
        SoonRest(turns, 3 - attempt);
      }
      if answer.Lost? && Transient(answer.error) && attempt < 2 {
        if wire.server.View() != before { runs := runs + 1; }
        attempt := attempt + 1;
      } else {
        return;
      }
    }
  }

  /** As long as saves are careful the store is in order and nothing on disk has been lost. */
  ghost predicate Kept(h: Hashes, s: Store, s': Store) {
    s'.copy.careful ==> s.copy.careful && StoreInv(h, s') && Lasting(s, s')
  }

  lemma StillKept(h: Hashes, s: Store)
    requires s.copy.careful ==> StoreInv(h, s)
    ensures Kept(h, s, s)
  {
    if s.copy.careful { RunKeeps(h, s, []); }
  }

  lemma SoundIsKept(h: Hashes, s: Store, s': Store, request: Request, answer: Answer)
    requires Sound(h, s, s', request, answer)
    ensures Kept(h, s, s')
  {
  }

  lemma FairSoon(script: seq<Turn>)
    requires Fair(script)
    ensures Soon(script, 3)
  {
    if |script| >= 3 {
      assert script[0].fate.Delivered? || script[1].fate.Delivered? || script[2].fate.Delivered?;
    }
  }

  /** If the first of the next calls is lost, one of the following gets through. */
  lemma SoonRest(script: seq<Turn>, n: nat)
    requires Soon(script, n) && n >= 1
    ensures FirstTurn(script).fate.Delivered? || (n >= 2 && Soon(RestOf(script), n - 1))
  {
    if script != [] && |script| >= n {
      var i :| 0 <= i < n && script[i].fate.Delivered?;
      if i > 0 { assert RestOf(script)[i - 1].fate.Delivered?; }
    }
  }

  // ---------------------------------------------------------------- publishing

  /** An upload of `content` from offset `from` on can go through: the entry, if there is one, is for this
      content, holds a prefix of it, and ends where one of our chunks ends. */
  ghost predicate Resumable(h: Hashes, s: Store, peer: PeerId, id: ArtifactId, content: Bytes, from: nat) {
    && id in s.entries && peer in s.entries[id].participants
    && MatchesUpload(h, s, id, content) && from <= s.entries[id].confirmed
  }

  ghost predicate MatchesUpload(h: Hashes, s: Store, id: ArtifactId, content: Bytes)
    requires id in s.entries
  {
    var e := s.entries[id];
    && e.meta.total == |content| && e.meta.sha == h.sha(content)
    && (e.confirmed % CHUNK == 0 || e.confirmed == |content|) && e.confirmed <= |content|
    && e.confirmed <= |FileOf(s, id)| && FileOf(s, id)[..e.confirmed] == content[..e.confirmed]
  }

  /** The registry will accept this upload, as a new one or on top of an earlier partial one. */
  ghost predicate Startable(h: Hashes, s: Store, peer: PeerId, job: Name, name: Name, media: Name, content: Bytes) {
    var id := h.name(job, name, h.sha(content));
    && content != [] && job in s.agents && s.agents[job] == peer && h.acceptable(name, media, h.sha(content))
    && (id in s.entries ==> MatchesUpload(h, s, id, content))
  }

  function ChunkEnd(content: Bytes, from: nat): nat
    requires from <= |content|
  {
    if from + CHUNK <= |content| then from + CHUNK else |content|
  }

  function WriteRequest(h: Hashes, id: ArtifactId, content: Bytes, from: nat): Request
    requires from <= |content|
  {
    var chunk := content[from..ChunkEnd(content, from)];
    Write(id, from, |content|, h.sha(content), h.sha(chunk), chunk)
  }

  lemma ChunksAlign(content: Bytes, from: nat, confirmed: nat)
    requires from % CHUNK == 0 && from < |content| && from <= confirmed <= |content|
    requires confirmed % CHUNK == 0 || confirmed == |content|
    ensures from < confirmed ==> ChunkEnd(content, from) <= confirmed
    ensures ChunkEnd(content, from) % CHUNK == 0 || ChunkEnd(content, from) == |content|
    ensures from < ChunkEnd(content, from) <= |content| && ChunkEnd(content, from) - from <= CHUNK
  {
    assert from == from / CHUNK * CHUNK && confirmed == confirmed / CHUNK * CHUNK + confirmed % CHUNK;
    assert (from + CHUNK) % CHUNK == 0;
  }

  lemma ReplayGoesThrough(h: Hashes, s: Store, peer: PeerId, id: ArtifactId, content: Bytes, from: nat)
    requires Resumable(h, s, peer, id, content, from) && from < ChunkEnd(content, from) <= s.entries[id].confirmed
    requires ChunkEnd(content, from) - from <= CHUNK
    ensures var (s', reply) := DoWrite(h, s, peer, WriteRequest(h, id, content, from), Healthy, SAVED);
            reply.Confirmed? && Resumable(h, s', peer, id, content, ChunkEnd(content, from))
  {
    var e, file, end := s.entries[id], FileOf(s, id), ChunkEnd(content, from);
    assert file[from..end] == file[..e.confirmed][from..end] == content[..e.confirmed][from..end] == content[from..end];
  }

  lemma AppendGoesThrough(h: Hashes, s: Store, peer: PeerId, id: ArtifactId, content: Bytes, from: nat)
    requires Resumable(h, s, peer, id, content, from) && from == s.entries[id].confirmed
    requires var end := ChunkEnd(content, from);
             from < end && end - from <= CHUNK && (end % CHUNK == 0 || end == |content|)
    ensures var (s', reply) := AppendChunk(h, s, WriteRequest(h, id, content, from), Healthy, SAVED);
            reply.Confirmed? && Resumable(h, s', peer, id, content, ChunkEnd(content, from))
  {
    var file, end := FileOf(s, id), ChunkEnd(content, from);
    assert Prefix(file, from) + content[from..end] == content[..end];
    if end == |content| { assert content[..end] == content; }
  }

  /** Executed on a resumable upload, a write of the next chunk is confirmed, be it the first time or a
      repetition. */
  lemma WriteGoesThrough(h: Hashes, s: Store, peer: PeerId, id: ArtifactId, content: Bytes, from: nat)
    requires Resumable(h, s, peer, id, content, from) && from < |content| && from % CHUNK == 0
    ensures var (s', reply) := Apply(h, s, Ask(peer, WriteRequest(h, id, content, from), Healthy, SAVED));
            reply.Confirmed? && Resumable(h, s', peer, id, content, ChunkEnd(content, from))
  {
    ChunksAlign(content, from, s.entries[id].confirmed);
    if from < s.entries[id].confirmed { ReplayGoesThrough(h, s, peer, id, content, from); }
    else { AppendGoesThrough(h, s, peer, id, content, from); }
    hide MatchesUpload, AppendChunk;
  }

  lemma {:induction false} WritesGoThrough(h: Hashes, s: Store, peer: PeerId, id: ArtifactId, content: Bytes, from: nat,
                                           k: nat)
    requires Resumable(h, s, peer, id, content, from) && from < |content| && from % CHUNK == 0
    ensures Resumable(h, Times(h, s, Ask(peer, WriteRequest(h, id, content, from), Healthy, SAVED), k),
                      peer, id, content, from)
  {
    if k > 0 {
      WritesGoThrough(h, s, peer, id, content, from, k - 1);
      WriteGoesThrough(h, Times(h, s, Ask(peer, WriteRequest(h, id, content, from), Healthy, SAVED), k - 1),
                       peer, id, content, from);
    }
  }

  lemma RegisterGoesThrough(h: Hashes, s: Store, peer: PeerId, r: Request, content: Bytes)
    requires r.Register? && r.total == |content| && r.sha == h.sha(content)
    requires Startable(h, s, peer, r.job, r.name, r.media, content)
    ensures var (s', reply) := Apply(h, s, Ask(peer, r, Healthy, SAVED));
            && reply.Registered? && reply.meta.id == h.name(r.job, r.name, r.sha)
            && Startable(h, s', peer, r.job, r.name, r.media, content)
            && Resumable(h, s', peer, reply.meta.id, content, 0)
  {
    var s' := Apply(h, s, Ask(peer, r, Healthy, SAVED)).0;
    var id := h.name(r.job, r.name, r.sha);
    assert FileOf(s', id) == FileOf(s, id);
    assert FileOf(s, id)[..0] == content[..0];
  }

  lemma {:induction false} RegistersGoThrough(h: Hashes, s: Store, peer: PeerId, r: Request, content: Bytes, k: nat)
    requires r.Register? && r.total == |content| && r.sha == h.sha(content)
    requires Startable(h, s, peer, r.job, r.name, r.media, content)
    ensures Startable(h, Times(h, s, Ask(peer, r, Healthy, SAVED), k), peer, r.job, r.name, r.media, content)
  {
    if k > 0 {
      RegistersGoThrough(h, s, peer, r, content, k - 1);
      RegisterGoesThrough(h, Times(h, s, Ask(peer, r, Healthy, SAVED), k - 1), peer, r, content);
    }
  }

  /** Registers the artifact and writes it chunk by chunk. If an id comes back, the registry has published
      exactly these bytes, whatever was lost, refused, interleaved or restarted on the way, as long as saves
      of the index were careful. On a fair script an id does come back, also when an earlier partial upload
      is resumed. */
  method PublishArtifact(wire: Wire, peer: PeerId, job: Name, name: Name, media: Name, content: Bytes)
    returns (id: Option<ArtifactId>)
    requires StoreInv(wire.server.h, wire.server.View())
    modifies wire, wire.server
    ensures Kept(wire.server.h, old(wire.server.View()), wire.server.View())
    ensures id.Some? && wire.server.View().copy.careful ==>
              PublishedAs(wire.server.h, wire.server.View(), id.value, content)
              && MayRead(wire.server.View(), id.value, job)
    ensures (&& Fair(old(wire.script))
             && Startable(wire.server.h, old(wire.server.View()), peer, job, name, media, content)) ==> id.Some?
  {
    hide StoreInv, Lasting, Resumable, Startable, Fair, Uploaded, PublishedAs, MayRead, Apply, Times, Exchange, Run;
    ghost var h, start := wire.server.h, wire.server.View();
    ghost var fair := Fair(wire.script) && Startable(h, start, peer, job, name, media, content);
    var sha := wire.server.h.sha(content);
    var register := Register(job, name, media, |content|, sha);
    var answer, runs := Retry(wire, peer, register);
    if fair {
      RegistersGoThrough(h, start, peer, register, content, runs);
      RegisterGoesThrough(h, Times(h, start, Ask(peer, register, Healthy, SAVED), runs), peer, register, content);
    }
    if answer.Lost? || !answer.reply.Registered? { return None; }
    var artifact := answer.reply.meta.id;
    assert |content| > 0;
    var from := 0;
    while from < |content|
      invariant from <= |content| && (from % CHUNK == 0 || from == |content|)
      invariant Kept(h, start, wire.server.View())
      invariant wire.server.View().copy.careful ==>
                  && MayRead(wire.server.View(), artifact, job)
                  && (from > 0 ==> Uploaded(wire.server.View(), artifact, |content|, sha, content[..from]))
      invariant fair ==> Fair(wire.script) && Resumable(h, wire.server.View(), peer, artifact, content, from)
    {
      ghost var before := wire.server.View();
      var chunk := content[from..ChunkEnd(content, from)];
      var write := Write(artifact, from, |content|, sha, wire.server.h.sha(chunk), chunk);
      answer, runs := Retry(wire, peer, write);
      if wire.server.View().copy.careful {
        LastingCompose(start, before, wire.server.View());
        MayReadLasts(before, wire.server.View(), artifact, job);
      }
      if fair {
        WritesGoThrough(h, before, peer, artifact, content, from, runs);
        var repeated := Ask(peer, write, Healthy, SAVED);
        WriteGoesThrough(h, Times(h, before, repeated, runs), peer, artifact, content, from);
      }
      if answer.Lost? || !answer.reply.Confirmed? { return None; }
      Slices(content, from, ChunkEnd(content, from));
      from := ChunkEnd(content, from);
    }
    Slices(content, 0, |content|);
    if wire.server.View().copy.careful { UploadedAll(h, wire.server.View(), artifact, content); }
    return Some(artifact);
  }

  // ---------------------------------------------------------------- downloading

  /** `content` is published under `id`, and `peer` may read it. */
  ghost predicate ReadableAs(h: Hashes, s: Store, peer: PeerId, id: ArtifactId, content: Bytes) {
    PublishedAs(h, s, id, content) && peer in Index(s)[id].participants
  }

  lemma ReadableLasts(h: Hashes, s: Store, s': Store, peer: PeerId, id: ArtifactId, content: Bytes)
    requires StoreInv(h, s') && s'.copy.careful && Lasting(s, s')
    ensures PublishedAs(h, s, id, content) ==> PublishedAs(h, s', id, content)
    ensures ReadableAs(h, s, peer, id, content) ==> ReadableAs(h, s', peer, id, content)
  {
    if PublishedAs(h, s, id, content) {
      UploadedLasts(s, s', id, |content|, h.sha(content), content);
      UploadedAll(h, s', id, content);
      assert Extends(Index(s)[id], FileOf(s, id), Index(s')[id], FileOf(s', id));
    }
  }

  lemma ReaderParticipates(h: Hashes, s: Store, peer: PeerId, id: ArtifactId, content: Bytes)
    requires StoreInv(h, s) && s.copy.careful && ReadableAs(h, s, peer, id, content)
    ensures peer in s.entries[id].participants
  {
  }

  /** Calls arrive and files can be read; others may do what they like meanwhile. */
  ghost predicate Reaching(script: seq<Turn>) {
    forall i | 0 <= i < |script| :: script[i].fate.Delivered? && script[i].fault.Healthy?
  }

  lemma ReachingRest(script: seq<Turn>)
    requires Reaching(script)
    ensures Reaching(RestOf(script)) && FirstTurn(script).fate.Delivered? && FirstTurn(script).fault.Healthy?
  {
    assert forall i | 0 <= i < |RestOf(script)| :: RestOf(script)[i] == script[i + 1];
  }

  /** What a described published artifact says about itself. */
  lemma InfoTells(h: Hashes, s: Store, turn: Turn, peer: PeerId, id: ArtifactId, content: Bytes)
    requires StoreInv(h, s) && PublishedAs(h, s, id, content)
    requires Exchange(h, s, turn, peer, Info(id)).0.copy.careful
    ensures var (s', answer) := Exchange(h, s, turn, peer, Info(id));
            && PublishedAs(h, s', id, content)
            && (answer.Answered? && answer.reply.Described? ==>
                  && answer.reply.meta.id == id
                  && answer.reply.meta.total == |content| && answer.reply.meta.sha == h.sha(content))
            && (ReadableAs(h, s, peer, id, content) && turn.fate.Delivered? ==>
                  ReadableAs(h, s', peer, id, content) && answer.Answered? && answer.reply.Described?)
  {
    var s1 := Run(h, s, turn.before);
    RunKeeps(h, s, turn.before);
    ReadableLasts(h, s, s1, peer, id, content);
    hide StoreInv, Run, Held;
  }

  /** A read of a published artifact answers the asked slice of its content. */
  lemma SliceTells(h: Hashes, s: Store, peer: PeerId, id: ArtifactId, content: Bytes, from: nat)
    requires PublishedAs(h, s, id, content) && from < |content|
    ensures var reply := DoRead(s, peer, Read(id, from, CHUNK, |content|, h.sha(content)));
            && (reply.Chunk? ==> reply.offset == from && reply.bytes == content[from..ChunkEnd(content, from)])
            && (peer in s.entries[id].participants ==> reply.Chunk?)
  {
    var file, end := FileOf(s, id), ChunkEnd(content, from);
    SliceOfPrefix(file, |content|, from, end);
  }

  lemma SliceOfPrefix(b: Bytes, n: nat, i: nat, j: nat)
    requires i <= j <= n <= |b|
    ensures b[..n][i..j] == b[i..j]
  {
  }

  lemma ReadTells(h: Hashes, s: Store, turn: Turn, peer: PeerId, id: ArtifactId, content: Bytes, from: nat)
    requires StoreInv(h, s) && PublishedAs(h, s, id, content) && from < |content|
    requires Exchange(h, s, turn, peer, Read(id, from, CHUNK, |content|, h.sha(content))).0.copy.careful
    ensures var (s', answer) := Exchange(h, s, turn, peer, Read(id, from, CHUNK, |content|, h.sha(content)));
            && PublishedAs(h, s', id, content)
            && (answer.Answered? && answer.reply.Chunk? ==>
                  answer.reply.offset == from && answer.reply.bytes == content[from..ChunkEnd(content, from)])
            && (ReadableAs(h, s, peer, id, content) && turn.fate.Delivered? && turn.fault.Healthy? ==>
                  ReadableAs(h, s', peer, id, content) && answer.Answered? && answer.reply.Chunk?)
  {
    hide StoreInv, Lasting, PublishedAs, DoRead, Run;
    var s1 := Run(h, s, turn.before);
    RunKeeps(h, s, turn.before);
    ReadableLasts(h, s, s1, peer, id, content);
    if ReadableAs(h, s1, peer, id, content) { ReaderParticipates(h, s1, peer, id, content); }
    SliceTells(h, s1, peer, id, content, from);
  }

  lemma Slices(b: Bytes, i: nat, j: nat)
    requires i <= j <= |b|
    ensures b[..j] == b[..i] + b[i..j] && b[..|b|] == b
  {
  }

  /** Reads an artifact piece by piece. What comes back has the announced hash; of a published artifact it is
      exactly the content, as long as saves of the index were careful, and it does come back to a participant
      whose calls arrive. The loop ends because every piece it accepts has at least one byte. */
  method DownloadArtifact(wire: Wire, peer: PeerId, id: ArtifactId, ghost content: Bytes) returns (bytes: Option<Bytes>)
    requires wire.server.View().copy.careful ==> StoreInv(wire.server.h, wire.server.View())
    modifies wire, wire.server
    ensures wire.server.View().copy.careful ==>
              && old(wire.server.View().copy.careful) && StoreInv(wire.server.h, wire.server.View())
              && (PublishedAs(wire.server.h, old(wire.server.View()), id, content) ==>
                    && PublishedAs(wire.server.h, wire.server.View(), id, content)
                    && (bytes.None? || bytes.value == content))
              && ((&& ReadableAs(wire.server.h, old(wire.server.View()), peer, id, content)
                   && Reaching(old(wire.script))) ==> bytes == Some(content))
  {
    hide StoreInv, Lasting, PublishedAs, Reaching, Exchange, Uploaded;
    ghost var h, start := wire.server.h, wire.server.View();
    ghost var known := PublishedAs(h, start, id, content);
    ghost var sure := ReadableAs(h, start, peer, id, content) && Reaching(wire.script);
    ExchangeSound(h, start, FirstTurn(wire.script), peer, Info(id));
    if known && Exchange(h, start, FirstTurn(wire.script), peer, Info(id)).0.copy.careful {
      InfoTells(h, start, FirstTurn(wire.script), peer, id, content);
    }
    if sure { ReachingRest(wire.script); }
    var answer := wire.Call(peer, Info(id));
    if answer.Lost? || !answer.reply.Described? { return None; }
    var meta := answer.reply.meta;
    var got: Bytes := [];
    while |got| < meta.total
      invariant wire.server.View().copy.careful ==>
                  && start.copy.careful && StoreInv(h, wire.server.View())
                  && (known ==>
                        && PublishedAs(h, wire.server.View(), id, content)
                        && meta.id == id && meta.total == |content| && meta.sha == h.sha(content)
                        && |got| <= |content| && got == content[..|got|])
                  && (sure ==> ReadableAs(h, wire.server.View(), peer, id, content))
      invariant sure ==> Reaching(wire.script)
      decreases meta.total - |got|
    {
      ghost var before, turn := wire.server.View(), FirstTurn(wire.script);
      var read := Read(meta.id, |got|, CHUNK, meta.total, meta.sha);
      ExchangeSound(h, before, turn, peer, read);
      if known && Exchange(h, before, turn, peer, read).0.copy.careful {
        ReadTells(h, before, turn, peer, id, content, |got|);
        Slices(content, |got|, ChunkEnd(content, |got|));
      }
      if sure { ReachingRest(wire.script); }
      answer := wire.Call(peer, read);
      if answer.Lost? || !answer.reply.Chunk? { return None; }
      if answer.reply.offset != |got| || answer.reply.bytes == [] { return None; }
      got := got + answer.reply.bytes;
    }
    if known && wire.server.View().copy.careful { Slices(content, |got|, |content|); }
    if wire.server.h.sha(got) != meta.sha { return None; }
    return Some(got);
  }

  /** End to end: if an upload over a lossy wire reports success then, whatever has happened at the registry
      since, a download that reports success gives back the very bytes, and the job's client gets them as
      soon as its calls arrive; all that as long as saves of the index were careful. */
  method RoundTrip(up: Wire, down: Wire, agent: PeerId, client: PeerId, job: Name, name: Name, media: Name,
                   content: Bytes)
    returns (id: Option<ArtifactId>, bytes: Option<Bytes>)
    requires up != down && up.server == down.server && StoreInv(up.server.h, up.server.View())
    modifies up, down, up.server
    ensures up.server.View().copy.careful ==>
              && (id.Some? && bytes.Some? ==> bytes.value == content)
              && ((&& id.Some? && job in up.server.clients && up.server.clients[job] == client
                   && Reaching(old(down.script))) ==> bytes == Some(content))
  {
    id := PublishArtifact(up, agent, job, name, media, content);
    bytes := None;
    if id.Some? {
      bytes := DownloadArtifact(down, client, id.value, content);
    }
  }
}
