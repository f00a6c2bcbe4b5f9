/** What artifact requests are answered and what they change, told of the entry, its file and the request alone. */
module ArtifactAnswers {
  import opened Common
  import opened Persistence
  import opened ArtifactStore

  // ---------------------------------------------------------------- registration

  /** `peer` is the agent that runs the job. */
  predicate Runs(s: Store, peer: PeerId, job: Name) {
    job in s.agents && s.agents[job] == peer
  }

  /** A job's agent, and nobody else, registers artifacts of a positive size with acceptable names. A first
      registration enrols the agent and the job's client for an artifact of which nothing is confirmed; a later
      one adds them to those enrolled. No other artifact and no file changes. */
  lemma RegistersExactly(h: Hashes, s: Store, peer: PeerId, r: Request, save: Save)
    requires r.Register?
    ensures var (s', reply) := DoRegister(h, s, peer, r, save);
            var id := h.name(r.job, r.name, r.sha);
            var admitted := Runs(s, peer, r.job) && r.total > 0 && h.acceptable(r.name, r.media, r.sha);
            && (reply == Failed("artifact_access_denied") <==> !Runs(s, peer, r.job))
            && (reply == Failed("invalid_artifact_metadata") <==> Runs(s, peer, r.job) && !admitted)
            && (reply == Failed("persistence_failed") <==> admitted && !save.Complete?)
            && (reply.Registered? <==> admitted && save.Complete?)
            && (reply.Registered? ==> reply.meta == Metadata(id, r.job, r.name, r.media, r.total, r.sha))
            && (!admitted ==> s' == s)
            && (admitted ==>
                  && id in s'.entries
                  && (forall p :: p in s'.entries[id].participants <==>
                        || (id in s.entries && p in s.entries[id].participants)
                        || p == peer || (r.job in s.clients && p == s.clients[r.job]))
                  && (id !in s.entries ==>
                        && s'.entries[id].meta == Metadata(id, r.job, r.name, r.media, r.total, r.sha)
                        && s'.entries[id].confirmed == 0 && !s'.entries[id].published)
                  && (id in s.entries ==>
                        s'.entries[id] == s.entries[id].(participants := s'.entries[id].participants))
                  && s' == s.(entries := s.entries[id := s'.entries[id]], copy := Persist(s.copy, s'.entries, save)))
  {
    hide Persist, Held;
  }

  // ---------------------------------------------------------------- writes

  /** The peer may write to the artifact, and means the one that was registered. */
  predicate Addressed(s: Store, peer: PeerId, id: ArtifactId, total: nat, sha: Digest) {
    && id in s.entries && peer in s.entries[id].participants
    && total == s.entries[id].meta.total && sha == s.entries[id].meta.sha
  }

  /** Between one byte and 64 KiB, within the artifact, and with the hash that the peer says they have. */
  predicate WellFormed(h: Hashes, w: Request)
    requires w.Write?
  {
    1 <= |w.bytes| <= 65536 && w.offset + |w.bytes| <= w.total && h.sha(w.bytes) == w.chunkSha
  }

  /** The chunk lies within what is confirmed, and those are the bytes there. */
  ghost predicate Repeats(s: Store, w: Request)
    requires w.Write? && w.id in s.entries
  {
    var end := w.offset + |w.bytes|;
    && end <= s.entries[w.id].confirmed && end <= |FileOf(s, w.id)|
    && forall i | w.offset <= i < end :: FileOf(s, w.id)[i] == w.bytes[i - w.offset]
  }

  /** The chunk follows what is confirmed, and if it is the last the whole has the registered hash. */
  ghost predicate Continues(h: Hashes, s: Store, w: Request)
    requires w.Write? && w.id in s.entries && s.entries[w.id].confirmed <= |FileOf(s, w.id)|
  {
    var e := s.entries[w.id];
    && w.offset == e.confirmed
    && (w.offset + |w.bytes| == e.meta.total ==> h.sha(FileOf(s, w.id)[..w.offset] + w.bytes) == e.meta.sha)
  }

  lemma SameBytes(file: Bytes, offset: nat, bytes: Bytes)
    requires offset + |bytes| <= |file|
    ensures file[offset..offset + |bytes|] == bytes
            <==> forall i | offset <= i < offset + |bytes| :: file[i] == bytes[i - offset]
  {
    if forall i | offset <= i < offset + |bytes| :: file[i] == bytes[i - offset] {
      forall k | 0 <= k < |bytes| ensures file[offset..offset + |bytes|][k] == bytes[k] {
        assert file[offset + k] == bytes[offset + k - offset];
      }
    }
  }

  lemma AppendsExactly(h: Hashes, s: Store, w: Request, fault: Fault, save: Save)
    requires w.Write? && w.id in s.entries && w.offset == s.entries[w.id].confirmed <= |FileOf(s, w.id)|
    ensures var reply := AppendChunk(h, s, w, fault, save).1;
            && (reply.Confirmed? <==> fault.Healthy? && save.Complete? && Continues(h, s, w))
            && (reply.Failed? ==> reply.code in {"artifact_io", "artifact_hash_mismatch", "persistence_failed"})
  {
    hide Persist, Held;
  }

  /** A chunk from within what is confirmed. */
  lemma RepeatsExactly(h: Hashes, s: Store, peer: PeerId, w: Request, fault: Fault, save: Save)
    requires w.Write? && Addressed(s, peer, w.id, w.total, w.sha) && WellFormed(h, w)
    requires w.offset < s.entries[w.id].confirmed <= |FileOf(s, w.id)|
    ensures DoWrite(h, s, peer, w, fault, save).1.Confirmed? <==>
              fault.Healthy? && save.Complete? && Repeats(s, w)
  {
    hide Persist, Held, AppendChunk;
    if w.offset + |w.bytes| <= |FileOf(s, w.id)| { SameBytes(FileOf(s, w.id), w.offset, w.bytes); }
  }

  lemma RefusesMalformed(h: Hashes, s: Store, peer: PeerId, w: Request, fault: Fault, save: Save)
    requires w.Write? && !(Addressed(s, peer, w.id, w.total, w.sha) && WellFormed(h, w))
    ensures !DoWrite(h, s, peer, w, fault, save).1.Confirmed?
  {
    hide Persist, Held, AppendChunk;
  }

  lemma ContinuesExactly(h: Hashes, s: Store, peer: PeerId, w: Request, fault: Fault, save: Save)
    requires w.Write? && Addressed(s, peer, w.id, w.total, w.sha) && WellFormed(h, w)
    requires s.entries[w.id].confirmed <= w.offset && s.entries[w.id].confirmed <= |FileOf(s, w.id)|
    ensures DoWrite(h, s, peer, w, fault, save).1.Confirmed? <==>
              fault.Healthy? && save.Complete? && Continues(h, s, w)
  {
    hide Persist, Held, AppendChunk;
    if w.offset == s.entries[w.id].confirmed { AppendsExactly(h, s, w, fault, save); }
  }

  /** A write is confirmed exactly if the peer may write, the chunk is well-formed, files and index can be written,
      and the chunk repeats confirmed bytes or continues them. */
  lemma ConfirmsExactly(h: Hashes, s: Store, peer: PeerId, w: Request, fault: Fault, save: Save)
    requires StoreInv(h, s) && w.Write?
    ensures w.id in s.entries ==> s.entries[w.id].confirmed <= |FileOf(s, w.id)|
    ensures DoWrite(h, s, peer, w, fault, save).1.Confirmed? <==>
              && Addressed(s, peer, w.id, w.total, w.sha) && WellFormed(h, w)
              && fault.Healthy? && save.Complete? && (Repeats(s, w) || Continues(h, s, w))
  {
    if w.id in s.entries { assert EntryInv(h, w.id, s.entries[w.id], FileOf(s, w.id)); }
    if !(Addressed(s, peer, w.id, w.total, w.sha) && WellFormed(h, w)) {
      RefusesMalformed(h, s, peer, w, fault, save);
    } else if w.offset < s.entries[w.id].confirmed {
      RepeatsExactly(h, s, peer, w, fault, save);
    } else {
      ContinuesExactly(h, s, peer, w, fault, save);
    }
    hide DoWrite, StoreInv, EntryInv;
  }

  /** Who is refused whatever it writes: a peer that is not enrolled for the artifact, and one that means another. */
  lemma TurnsAwayExactly(h: Hashes, s: Store, peer: PeerId, w: Request, fault: Fault, save: Save)
    requires w.Write?
    ensures var reply := DoWrite(h, s, peer, w, fault, save).1;
            if w.id !in s.entries then reply == Failed("unknown_artifact")
            else if peer !in s.entries[w.id].participants then reply == Failed("artifact_access_denied")
            else if !Addressed(s, peer, w.id, w.total, w.sha) then reply == Failed("artifact_metadata_mismatch")
            else if !(1 <= |w.bytes| <= 65536 && w.offset + |w.bytes| <= w.total) then
              reply == Failed("invalid_chunk_length")
            else if !WellFormed(h, w) then reply == Failed("chunk_hash_mismatch")
            else if w.offset < s.entries[w.id].confirmed < w.offset + |w.bytes|
                    || s.entries[w.id].confirmed < w.offset then reply == Failed("invalid_offset")
            else true
  {
    hide Persist, Held, AppendChunk;
  }

  /** Repeating confirmed bytes changes nothing but that the index is saved. Continuing them adds the chunk behind
      them, and publishes the artifact exactly if that completes it. A chunk that is refused leaves every entry and
      every other file as it was. */
  lemma WritesExactly(h: Hashes, s: Store, peer: PeerId, w: Request, fault: Fault, save: Save)
    requires StoreInv(h, s) && w.Write? && DoWrite(h, s, peer, w, fault, save).1.Confirmed?
    ensures w.id in s.entries && s.entries[w.id].confirmed <= |FileOf(s, w.id)|
    ensures var (s', reply) := DoWrite(h, s, peer, w, fault, save);
            var e, end := s.entries[w.id], w.offset + |w.bytes|;
            if Repeats(s, w) then
              reply.confirmed == e.confirmed && s' == s.(copy := Persist(s.copy, s.entries, save))
            else
              && reply.confirmed == end
              && s'.files == s.files[w.id := FileOf(s, w.id)[..e.confirmed] + w.bytes]
              && s'.entries == s.entries[w.id := e.(confirmed := end, published := end == e.meta.total)]
              && s' == s.(files := s'.files, entries := s'.entries, copy := Persist(s.copy, s'.entries, save))
  {
    ConfirmsExactly(h, s, peer, w, fault, save);
    var e := s.entries[w.id];
    assert EntryInv(h, w.id, e, FileOf(s, w.id));
    assert e.published ==> e.confirmed == e.meta.total;
    hide Persist, Held, StoreInv, EntryInv;
  }

  lemma RefusedWrite(h: Hashes, s: Store, peer: PeerId, w: Request, fault: Fault, save: Save)
    requires w.Write? && !DoWrite(h, s, peer, w, fault, save).1.Confirmed? && save.Complete?
    ensures var s' := DoWrite(h, s, peer, w, fault, save).0;
            s' == s.(files := s'.files) && forall id | id != w.id :: FileOf(s', id) == FileOf(s, id)
  {
    hide Persist, Held;
  }

  // ---------------------------------------------------------------- reads

  /** A peer is told of an artifact exactly if it is enrolled for it and it is published. */
  lemma DescribesExactly(s: Store, peer: PeerId, id: ArtifactId)
    ensures var reply := DoInfo(s, peer, id);
            && (reply.Described? <==>
                  id in s.entries && peer in s.entries[id].participants && s.entries[id].published)
            && (reply.Described? ==> reply.meta == s.entries[id].meta)
            && (reply == Failed("artifact_access_denied") <==>
                  id in s.entries && peer !in s.entries[id].participants)
            && (reply == Failed("artifact_not_published") <==>
                  id in s.entries && peer in s.entries[id].participants && !s.entries[id].published)
  {
  }

  /** A read is answered exactly if the peer may be told of the artifact, means the one that was registered, and
      asks for between one byte and 64 KiB from within it. It is given those bytes, as far as there are any. */
  lemma ReadsExactly(h: Hashes, s: Store, peer: PeerId, r: Request)
    requires StoreInv(h, s) && r.Read?
    ensures var reply := DoRead(s, peer, r);
            && (reply.Chunk? <==>
                  && Addressed(s, peer, r.id, r.total, r.sha) && s.entries[r.id].published
                  && 1 <= r.length <= 65536 && r.offset < r.total)
            && (reply.Chunk? ==>
                  && reply.offset == r.offset
                  && |reply.bytes| == (if r.offset + r.length <= r.total then r.length else r.total - r.offset)
                  && r.offset + |reply.bytes| <= |FileOf(s, r.id)|
                  && forall i | 0 <= i < |reply.bytes| :: reply.bytes[i] == FileOf(s, r.id)[r.offset + i])
  {
    if r.id in s.entries { assert EntryInv(h, r.id, s.entries[r.id], FileOf(s, r.id)); }
    hide StoreInv, EntryInv;
  }
}
