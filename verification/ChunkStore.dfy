/** The out-of-order artifact store: chunks arrive in any order, and the last one publishes the artifact. */
module ChunkStores {
  import opened Common

  /** Names, and hashes as names, as the store sees them. */
  datatype Naming = Naming(sha: Bytes -> Name, isPlain: Name -> bool, isDigest: Name -> bool)

  datatype Metadata = Metadata(sha256: Name, size: nat, expiresAt: nat)

  datatype Entry = Entry(metadata: Metadata, hashes: seq<Name>, chunks: seq<Option<Bytes>>, published: bool)

  datatype ArtifactError =
    | PathTraversal
    | Expired
    | SessionDenied
    | ChunkHashMismatch
    | ChunkConflict
    | NotPublished
    | InvalidMetadata
    | Io

  datatype Result<T> = Ok(value: T) | Err(error: ArtifactError)

  // ---------------------------------------------------------------- one upload

  /** The chunks in index order. */
  function Joined(chunks: seq<Option<Bytes>>): Bytes {
    if chunks == [] then []
    else Joined(chunks[..|chunks| - 1]) + match chunks[|chunks| - 1] case Some(b) => b case None => []
  }

  predicate Complete(chunks: seq<Option<Bytes>>) {
    forall i | 0 <= i < |chunks| :: chunks[i].Some?
  }

  /** Published exactly when nothing is missing, with every hash right. */
  ghost predicate Sound(n: Naming, e: Entry) {
    && |e.chunks| == |e.hashes| > 0
    && (forall i | 0 <= i < |e.chunks| && e.chunks[i].Some? :: n.sha(e.chunks[i].value) == e.hashes[i])
    && (e.published <==> Complete(e.chunks))
    && (e.published ==> |Joined(e.chunks)| == e.metadata.size && n.sha(Joined(e.chunks)) == e.metadata.sha256)
  }

  /** What a chunk does to an entry that has not expired. */
  datatype Written = Kept(result: Result<()>) | Stored(entry: Entry) | Published(entry: Entry, content: Bytes)

  function Receive(n: Naming, e: Entry, index: nat, contents: Bytes): Written
    requires |e.chunks| == |e.hashes|
  {
    if index >= |e.chunks| then Kept(Err(ChunkHashMismatch))
    else if e.chunks[index].Some? then Kept(if e.chunks[index].value == contents then Ok(()) else Err(ChunkConflict))
    else if n.sha(contents) != e.hashes[index] then Kept(Err(ChunkHashMismatch))
    else
      var chunks := e.chunks[index := Some(contents)];
      if !Complete(chunks) then Stored(e.(chunks := chunks))
      else if |Joined(chunks)| != e.metadata.size || n.sha(Joined(chunks)) != e.metadata.sha256
      then Kept(Err(ChunkHashMismatch))
      else Published(e.(chunks := chunks, published := true), Joined(chunks))
  }

  /** One call: whether its file could be written is the environment's choice. */
  datatype Write = Write(index: nat, contents: Bytes, fileWritten: bool)

  function Apply(n: Naming, e: Entry, w: Write): Entry
    requires |e.chunks| == |e.hashes|
    ensures |Apply(n, e, w).chunks| == |e.chunks| && Apply(n, e, w).hashes == e.hashes
  {
    match Receive(n, e, w.index, w.contents)
    case Kept(_) => e
    case Stored(after) => after
    case Published(after, _) => if w.fileWritten then after else e
  }

  function Run(n: Naming, e: Entry, writes: seq<Write>): (r: Entry)
    requires |e.chunks| == |e.hashes|
    ensures |r.chunks| == |e.chunks| && r.hashes == e.hashes
    decreases |writes|
  {
    if writes == [] then e else Apply(n, Run(n, e, writes[..|writes| - 1]), writes[|writes| - 1])
  }

  /** Whatever is written, in whatever order and with whatever failures, the entry stays sound, a stored chunk
      never changes, and publication is never taken back. */
  lemma {:induction false} AnyWrites(n: Naming, e: Entry, writes: seq<Write>)
    requires Sound(n, e)
    ensures var r := Run(n, e, writes);
            && Sound(n, r) && r.metadata == e.metadata
            && (forall i | 0 <= i < |e.chunks| && e.chunks[i].Some? :: r.chunks[i] == e.chunks[i])
            && (e.published ==> r == e)
    decreases |writes|
  {
    if writes != [] {
      AnyWrites(n, e, writes[..|writes| - 1]);
    }
  }

  // ---------------------------------------------------------------- the right content, in any order

  function Whole(pieces: seq<Bytes>): seq<Option<Bytes>> {
    seq(|pieces|, i requires 0 <= i < |pieces| => Some(pieces[i]))
  }

  /** Registered for exactly these pieces, nothing received yet. */
  ghost predicate RegisteredFor(n: Naming, e: Entry, pieces: seq<Bytes>) {
    && pieces != [] && |e.hashes| == |e.chunks| == |pieces|
    && (forall i | 0 <= i < |pieces| :: e.hashes[i] == n.sha(pieces[i]) && e.chunks[i] == None)
    && e.metadata.size == |Joined(Whole(pieces))| && e.metadata.sha256 == n.sha(Joined(Whole(pieces)))
    && !e.published
  }

  /** The right pieces, in any order, any number of times, on a disk that takes them. */
  ghost predicate RightWrites(writes: seq<Write>, pieces: seq<Bytes>) {
    forall w <- writes :: w.index < |pieces| && w.contents == pieces[w.index] && w.fileWritten
  }

  function Indices(writes: seq<Write>): set<nat> {
    set w <- writes :: w.index
  }

  /** Exactly the chunks that have arrived are stored; the artifact is published exactly when all have. */
  ghost predicate HoldsExactly(r: Entry, pieces: seq<Bytes>, arrived: set<nat>) {
    && |r.chunks| == |pieces|
    && (forall i: nat | i < |pieces| :: r.chunks[i] == if i in arrived then Some(pieces[i]) else None)
    && (r.published <==> forall i: nat | i < |pieces| :: i in arrived)
  }

  lemma OneArrives(n: Naming, e: Entry, pieces: seq<Bytes>, r: Entry, w: Write, arrived: set<nat>)
    requires RegisteredFor(n, e, pieces) && RightWrites([w], pieces)
    requires r.hashes == e.hashes && r.metadata == e.metadata && HoldsExactly(r, pieces, arrived)
    ensures HoldsExactly(Apply(n, r, w), pieces, arrived + {w.index}) && Apply(n, r, w).metadata == e.metadata
  {
    assert w in [w];
    var filled := r.chunks[w.index := Some(w.contents)];
    if Complete(filled) {
      assert filled == Whole(pieces);
    }
  }

  /** The stored content does not depend on the order in which its pieces arrive, nor on repetitions: at every
      point exactly the chunks that have arrived are there, and exactly the write that brings the last missing
      index publishes the artifact, with the pieces in index order as its content. */
  lemma {:induction false} OrderIndependent(n: Naming, e: Entry, pieces: seq<Bytes>, writes: seq<Write>)
    requires RegisteredFor(n, e, pieces) && RightWrites(writes, pieces)
    ensures var r := Run(n, e, writes);
            && HoldsExactly(r, pieces, Indices(writes))
            && (r.published ==> r.chunks == Whole(pieces))
            && r.metadata == e.metadata
    decreases |writes|
  {
    hide Apply;
    if writes == [] {
      StartsEmpty(n, e, pieces);
    } else {
      var front, w := writes[..|writes| - 1], writes[|writes| - 1];
      OrderIndependent(n, e, pieces, front);
      assert writes == front + [w];
      assert Indices(writes) == Indices(front) + {w.index};
      OneArrives(n, e, pieces, Run(n, e, front), w, Indices(front));
    }
  }

  lemma StartsEmpty(n: Naming, e: Entry, pieces: seq<Bytes>)
    requires RegisteredFor(n, e, pieces)
    ensures HoldsExactly(e, pieces, {}) && !e.published
  {
    assert 0 < |pieces| && 0 !in {};
  }

  // ---------------------------------------------------------------- the store

  /** Storing or publishing keeps the metadata, and what is published has the registered hash. */
  lemma ReceiveMeans(n: Naming, e: Entry, w: Write)
    requires Sound(n, e)
    ensures Sound(n, Apply(n, e, w)) && Apply(n, e, w).metadata == e.metadata
    ensures match Receive(n, e, w.index, w.contents)
            case Kept(_) => Apply(n, e, w) == e
            case Stored(after) => Apply(n, e, w) == after && !after.published
            case Published(after, content) =>
              && after.metadata == e.metadata && n.sha(content) == e.metadata.sha256 && after.published
              && Apply(n, e, w) == if w.fileWritten then after else e
  {
    AnyWrites(n, e, [w]);
    OneWrite(n, e, w);
  }

  /** The chunk is the last one missing, and what it completes has the registered size and hash. */
  ghost predicate Completes(n: Naming, e: Entry, index: nat, contents: Bytes)
    requires index < |e.chunks|
  {
    var whole := Joined(e.chunks[index := Some(contents)]);
    && (forall i: nat | i < |e.chunks| && i != index :: e.chunks[i].Some?)
    && |whole| == e.metadata.size && n.sha(whole) == e.metadata.sha256
  }

  /** What becomes of a chunk: one that is there already is answered by whether it is the same, a new one with its
      registered hash is stored or publishes the artifact, and anything else is refused. */
  lemma ReceivesExactly(n: Naming, e: Entry, index: nat, contents: Bytes)
    requires |e.chunks| == |e.hashes|
    ensures var w := Receive(n, e, index, contents);
            var known := index < |e.chunks| && e.chunks[index].Some?;
            var right := index < |e.chunks| && e.chunks[index].None? && n.sha(contents) == e.hashes[index];
            && (w == Kept(Ok(())) <==> known && e.chunks[index].value == contents)
            && (w == Kept(Err(ChunkConflict)) <==> known && e.chunks[index].value != contents)
            && (w.Stored? <==> right && exists i: nat :: i < |e.chunks| && i != index && e.chunks[i].None?)
            && (w.Published? <==> right && Completes(n, e, index, contents))
            && (w.Published? ==> w.content == Joined(e.chunks[index := Some(contents)]))
            && (w.Kept? && !known ==> w == Kept(Err(ChunkHashMismatch)))
  {
    hide Joined;
    if index < |e.chunks| {
      var filled := e.chunks[index := Some(contents)];
      assert forall i: nat | i < |e.chunks| && i != index :: filled[i] == e.chunks[i];
      if !Complete(filled) {
        var i :| 0 <= i < |filled| && filled[i].None?;
        assert i != index && e.chunks[i].None?;
      }
    }
  }

  lemma SizesMatch(n: Naming, entries: map<(Name, Name), Entry>)
    requires forall k <- entries :: Sound(n, entries[k])
    ensures forall k <- entries :: |entries[k].chunks| == |entries[k].hashes|
  {
  }

  class ChunkStore {
    const naming: Naming
    var entries: map<(Name, Name), Entry>
    var files: map<Name, Bytes>

    /** Every entry is sound, and what it has published is on disk under its hash. */
    ghost predicate Valid()
      reads this
    {
      && (forall k <- entries :: Sound(naming, entries[k]) && entries[k].metadata.sha256 == k.1)
      && (forall k <- entries | entries[k].published :: k.1 in files)
      && (forall id <- files :: naming.sha(files[id]) == id)
    }

    constructor (naming: Naming)
      ensures Valid() && this.naming == naming && entries == map[]
    {
      this.naming, entries, files := naming, map[], map[];
    }

    /** Registering starts the upload over, also where there was one. */
    method Register(session: Name, metadata: Metadata, hashes: seq<Name>, now: nat) returns (id: Result<Name>)
      requires Valid()
      modifies this
      ensures Valid() && files == old(files)
      ensures id == if !naming.isPlain(session) then Err(PathTraversal)
                    else if metadata.expiresAt <= now then Err(Expired)
                    else if !naming.isDigest(metadata.sha256) || hashes == [] then Err(InvalidMetadata)
                    else Ok(metadata.sha256)
      ensures entries == if id.Err? then old(entries)
        else old(entries)[(session, metadata.sha256) :=
                          Entry(metadata, hashes, seq(|hashes|, i => None), false)]
    {
      if !naming.isPlain(session) { return Err(PathTraversal); }
      if metadata.expiresAt <= now { return Err(Expired); }
      if !naming.isDigest(metadata.sha256) || hashes == [] { return Err(InvalidMetadata); }
      var entry := Entry(metadata, hashes, seq(|hashes|, i => None), false);
      assert entry.chunks[0] == None;
      entries := entries[(session, metadata.sha256) := entry];
      return Ok(metadata.sha256);
    }

    /** Why an entry cannot be used, if it cannot. */
    function Refusal(session: Name, id: Name, now: nat): Option<ArtifactError>
      reads this
    {
      if !naming.isPlain(session) then Some(PathTraversal)
      else if (session, id) !in entries then Some(SessionDenied)
      else if entries[(session, id)].metadata.expiresAt <= now then Some(Expired)
      else None
    }

    method MissingChunks(session: Name, id: Name, now: nat) returns (missing: Result<seq<nat>>)
      requires Valid()
      ensures missing == Err(PathTraversal) <==> !naming.isPlain(session)
      ensures missing == Err(SessionDenied) <==> naming.isPlain(session) && (session, id) !in entries
      ensures missing.Ok? <==>
        naming.isPlain(session) && (session, id) in entries && now < entries[(session, id)].metadata.expiresAt
      ensures match Refusal(session, id, now)
              case Some(error) => missing == Err(error)
              case None =>
                var e := entries[(session, id)];
                && missing.Ok?
                && (forall i: nat :: i in missing.value <==> i < |e.chunks| && e.chunks[i].None?)
                && (missing.value == [] <==> e.published)
    {
      var refusal := Refusal(session, id, now);
      if refusal.Some? { return Err(refusal.value); }
      var chunks := entries[(session, id)].chunks;
      var indices: seq<nat> := [];
      for i := 0 to |chunks|
        invariant forall k: nat :: k in indices <==> k < i && chunks[k].None?
        invariant indices == [] <==> Complete(chunks[..i])
      {
        assert chunks[..i + 1] == chunks[..i] + [chunks[i]];
        if chunks[i].None? { indices := indices + [i]; }
      }
      assert chunks[..|chunks|] == chunks;
      return Ok(indices);
    }

    /** One chunk. `fileWritten` says whether the finished artifact could be put in place. */
    method WriteChunk(session: Name, id: Name, index: nat, contents: Bytes, now: nat, fileWritten: bool)
        returns (result: Result<()>)
      requires Valid()
      modifies this
      ensures Valid()
      ensures result == Err(PathTraversal) <==> !naming.isPlain(session)
      ensures result == Err(SessionDenied) <==> naming.isPlain(session) && (session, id) !in old(entries)
      ensures result == Err(Expired) <==>
        && naming.isPlain(session) && (session, id) in old(entries)
        && old(entries)[(session, id)].metadata.expiresAt <= now
      ensures result.Ok? ==>
        && (session, id) in entries && index < |entries[(session, id)].chunks|
        && entries[(session, id)].chunks[index] == Some(contents)
      ensures if old(Refusal(session, id, now)).Some?
              then result == Err(old(Refusal(session, id, now)).value) && entries == old(entries) && files == old(files)
              else
                var e := old(entries)[(session, id)];
                && entries == old(entries)[(session, id) := Apply(naming, e, Write(index, contents, fileWritten))]
                && match Receive(naming, e, index, contents)
                   case Kept(r) => result == r && files == old(files)
                   case Stored(_) => result == Ok(()) && files == old(files)
                   case Published(_, content) =>
                     if fileWritten then result == Ok(()) && files == old(files)[id := content]
                     else result == Err(Io) && files == old(files)
    {
      hide Sound, Receive, Apply;
      SizesMatch(naming, entries);
      var refusal := Refusal(session, id, now);
      if refusal.Some? { return Err(refusal.value); }
      var e := entries[(session, id)];
      ReceiveMeans(naming, e, Write(index, contents, fileWritten));
      AnswerTells(naming, e, Write(index, contents, fileWritten));
      assert old(entries)[(session, id) := e] == old(entries);
      match Receive(naming, e, index, contents)
      case Kept(r) => return r;
      case Stored(after) =>
        entries := entries[(session, id) := after];
        return Ok(());
      case Published(after, content) =>
        if !fileWritten { return Err(Io); }
        files := files[after.metadata.sha256 := content];
        entries := entries[(session, id) := after];
        return Ok(());
    }

    /** A published artifact reads back with the registered hash; where no two contents share it, that is the
        chunks in index order. */
    method Read(session: Name, id: Name, now: nat) returns (content: Result<Bytes>)
      requires Valid()
      ensures content == Err(PathTraversal) <==> !naming.isPlain(session)
      ensures content == Err(SessionDenied) <==> naming.isPlain(session) && (session, id) !in entries
      ensures content.Ok? <==>
        && naming.isPlain(session) && (session, id) in entries
        && now < entries[(session, id)].metadata.expiresAt && entries[(session, id)].published
      ensures match Refusal(session, id, now)
              case Some(error) => content == Err(error)
              case None =>
                var e := entries[(session, id)];
                if !e.published then content == Err(NotPublished)
                else
                  && content.Ok? && naming.sha(content.value) == id
                  && ((forall b :: naming.sha(b) == id ==> b == Joined(e.chunks)) ==> content.value == Joined(e.chunks))
    {
      var refusal := Refusal(session, id, now);
      if refusal.Some? { return Err(refusal.value); }
      if !entries[(session, id)].published { return Err(NotPublished); }
      return Ok(files[id]);
    }
  }

  /** A chunk is confirmed only if the entry holds it then; and none is refused for want of a session or of time. */
  lemma AnswerTells(n: Naming, e: Entry, w: Write)
    requires |e.chunks| == |e.hashes|
    ensures var written, after := Receive(n, e, w.index, w.contents), Apply(n, e, w);
            && (written == Kept(Ok(())) || written.Stored? || (written.Published? && w.fileWritten) ==>
                  w.index < |after.chunks| && after.chunks[w.index] == Some(w.contents))
            && (written.Kept? ==> written.result in {Ok(()), Err(ChunkHashMismatch), Err(ChunkConflict)})
  {
    hide Joined;
  }

  lemma OneWrite(n: Naming, e: Entry, w: Write)
    requires |e.chunks| == |e.hashes|
    ensures Run(n, e, [w]) == Apply(n, e, w)
  {
    assert [w][..0] == [];
    assert Run(n, e, []) == e;
  }
}
