/** Content-addressed packages: files cut into chunks named by their hash, and put together
    again from whatever a network answers. (src/app_package.py:23-178 and 266-291) */
module AppPackage {
  import opened Wrappers

  const CHUNK_SIZE: nat := 49_152
  const MAX_FILES := 4096
  const MAX_TOTAL := 512 * 1024 * 1024
  const MAX_CHUNKS: nat := (MAX_TOTAL + CHUNK_SIZE - 1) / CHUNK_SIZE

  type Path = string
  type Key = nat
  type Digest = nat

  /** The truncated hash that names a chunk and the full one that seals a file. */
  datatype Hashes = Hashes(key: Bytes -> Key, digest: Bytes -> Digest)

  datatype File = File(path: Path, content: Bytes)

  datatype Entry = Entry(path: Path, size: int, digest: Digest, keys: seq<Key>)

  datatype Error = TooManyFiles | Missing | BadChunk | TooBig | WrongSize | WrongDigest

  /** What a chunk source answers to its n-th question: it may change its mind. */
  type Source = (nat, Key) -> Option<Bytes>

  // ------------------------------------------------------------------ cutting up

  function Chunks(content: Bytes): seq<Bytes> {
    if content == [] then []
    else if |content| <= CHUNK_SIZE then [content]
    else [content[..CHUNK_SIZE]] + Chunks(content[CHUNK_SIZE..])
  }

  function Keys(h: Hashes, chunks: seq<Bytes>): (r: seq<Key>)
    ensures |r| == |chunks| && forall i :: 0 <= i < |r| ==> r[i] == h.key(chunks[i])
  {
    seq(|chunks|, i requires 0 <= i < |chunks| => h.key(chunks[i]))
  }

  function Stored(h: Hashes, table: map<Key, Bytes>, chunks: seq<Bytes>): map<Key, Bytes> {
    if chunks == [] then table
    else Stored(h, table, chunks[..|chunks| - 1])[h.key(chunks[|chunks| - 1]) := chunks[|chunks| - 1]]
  }

  function EntryOf(h: Hashes, f: File): Entry {
    Entry(f.path, |f.content|, h.digest(f.content), Keys(h, Chunks(f.content)))
  }

  function Entries(h: Hashes, files: seq<File>): (r: seq<Entry>)
    ensures |r| == |files| && forall i :: 0 <= i < |r| ==> r[i] == EntryOf(h, files[i])
  {
    seq(|files|, i requires 0 <= i < |files| => EntryOf(h, files[i]))
  }

  function AllChunks(files: seq<File>): seq<Bytes> {
    if files == [] then [] else AllChunks(files[..|files| - 1]) + Chunks(files[|files| - 1].content)
  }

  lemma {:induction false} StoredTwice(h: Hashes, table: map<Key, Bytes>, a: seq<Bytes>, b: seq<Bytes>)
    ensures Stored(h, Stored(h, table, a), b) == Stored(h, table, a + b)
  {
    if b == [] {
      assert a + b == a;
    } else {
      StoredTwice(h, table, a, b[..|b| - 1]);
      assert (a + b)[..|a + b| - 1] == a + b[..|b| - 1];
    }
  }

  /** Cut one blob: its chunks into the table, their keys in order. */
  method ChunkBlob(h: Hashes, content: Bytes, table: map<Key, Bytes>) returns (after: map<Key, Bytes>, keys: seq<Key>)
    ensures after == Stored(h, table, Chunks(content)) && keys == Keys(h, Chunks(content))
  {
    hide Chunks, Stored, Keys;
    after, keys := table, [];
    var at := 0;
    ChunksFromStart(content);
    StoredNone(h, table);
    ghost var done: seq<Bytes> := [];
    while at < |content|
      invariant 0 <= at
      invariant done + (if at < |content| then Chunks(content[at..]) else []) == Chunks(content)
      invariant after == Stored(h, table, done) && keys == Keys(h, done)
      decreases |content| - at
    {
      var end := if at + CHUNK_SIZE < |content| then at + CHUNK_SIZE else |content|;
      var piece := content[at..end];
      ChunksOnward(content, at, done);
      after := after[h.key(piece) := piece];
      keys := keys + [h.key(piece)];
      StoredSnoc(h, table, done, piece);
      KeysSnoc(h, done, piece);
      done := done + [piece];
      at := at + CHUNK_SIZE;
    }
    assert done + [] == done;
  }

  lemma ChunksFromStart(content: Bytes)
    ensures if content == [] then Chunks(content) == [] else content[0..] == content
  {
  }

  lemma KeysSnoc(h: Hashes, chunks: seq<Bytes>, piece: Bytes)
    ensures Keys(h, chunks + [piece]) == Keys(h, chunks) + [h.key(piece)]
  {
  }

  /** The chunks cut so far and those of the rest, before and after one more cut. */
  lemma ChunksOnward(content: Bytes, at: nat, done: seq<Bytes>)
    requires at < |content| && done + Chunks(content[at..]) == Chunks(content)
    ensures var end := if at + CHUNK_SIZE < |content| then at + CHUNK_SIZE else |content|;
            (done + [content[at..end]])
             + (if at + CHUNK_SIZE < |content| then Chunks(content[at + CHUNK_SIZE..]) else [])
            == Chunks(content)
  {
    hide Chunks;
    ChunksStep(content, at);
    var end := if at + CHUNK_SIZE < |content| then at + CHUNK_SIZE else |content|;
    var rest := if at + CHUNK_SIZE < |content| then Chunks(content[at + CHUNK_SIZE..]) else [];
    assert (done + [content[at..end]]) + rest == done + ([content[at..end]] + rest);
  }

  lemma StoredNone(h: Hashes, table: map<Key, Bytes>)
    ensures Stored(h, table, []) == table
  {
  }

  lemma StoredSnoc(h: Hashes, table: map<Key, Bytes>, chunks: seq<Bytes>, piece: Bytes)
    ensures Stored(h, table, chunks + [piece]) == Stored(h, table, chunks)[h.key(piece) := piece]
  {
    assert (chunks + [piece])[..|chunks|] == chunks;
  }

  lemma ChunksStep(content: Bytes, at: nat)
    requires at < |content|
    ensures var end := if at + CHUNK_SIZE < |content| then at + CHUNK_SIZE else |content|;
            Chunks(content[at..])
            == [content[at..end]] + if at + CHUNK_SIZE < |content| then Chunks(content[at + CHUNK_SIZE..]) else []
  {
    if at + CHUNK_SIZE < |content| {
      assert content[at..][..CHUNK_SIZE] == content[at..at + CHUNK_SIZE];
      assert content[at..][CHUNK_SIZE..] == content[at + CHUNK_SIZE..];
    } else {
      assert content[at..] == content[at..|content|];
    }
  }

  lemma BuildStart(h: Hashes)
    ensures Stored(h, map[], AllChunks([])) == map[] && Entries(h, []) == []
  {
  }

  lemma BuildStep(h: Hashes, files: seq<File>, i: nat)
    requires i < |files|
    ensures AllChunks(files[..i + 1]) == AllChunks(files[..i]) + Chunks(files[i].content)
    ensures Entries(h, files[..i + 1]) == Entries(h, files[..i]) + [EntryOf(h, files[i])]
  {
    hide Chunks, EntryOf;
    assert files[..i + 1][..i] == files[..i];
  }

  /** The manifest's entries, and every chunk to publish. */
  method Build(h: Hashes, files: seq<File>) returns (r: Result<(seq<Entry>, map<Key, Bytes>), Error>)
    ensures if |files| > MAX_FILES then r == Err(TooManyFiles)
            else r == Ok((Entries(h, files), Stored(h, map[], AllChunks(files))))
  {
    if |files| > MAX_FILES {
      return Err(TooManyFiles);
    }
    var chunks: map<Key, Bytes> := map[];
    var entries: seq<Entry> := [];
    hide Chunks, Stored, AllChunks, Keys;
    BuildStart(h);
    for i := 0 to |files|
      invariant chunks == Stored(h, map[], AllChunks(files[..i]))
      invariant entries == Entries(h, files[..i])
    {
      BuildStep(h, files, i);
      var f := files[i];
      var keys;
      StoredTwice(h, map[], AllChunks(files[..i]), Chunks(f.content));
      chunks, keys := ChunkBlob(h, f.content, chunks);
      entries := entries + [Entry(f.path, |f.content|, h.digest(f.content), keys)];
    }
    assert files[..|files|] == files;
    return Ok((entries, chunks));
  }

  // ------------------------------------------------------------------ putting together

  /** One answer, checked against the key it was asked for. */
  function Checked(h: Hashes, key: Key, answer: Option<Bytes>): Result<Bytes, Error> {
    if answer.None? then Err(Missing)
    else if h.key(answer.value) != key then Err(BadChunk)
    else Ok(answer.value)
  }

  /** Chunks fetched in order from question `n` on, `total` bytes already counted. */
  function Gather(h: Hashes, keys: seq<Key>, source: Source, n: nat, total: nat): Result<Bytes, Error> {
    if keys == [] then Ok([])
    else
      var chunk := Checked(h, keys[0], source(n, keys[0]));
      if chunk.Err? then chunk
      else if total + |chunk.value| > MAX_TOTAL then Err(TooBig)
      else
        var rest := Gather(h, keys[1..], source, n + 1, total + |chunk.value|);
        if rest.Err? then rest else Ok(chunk.value + rest.value)
  }

  function Sealed(h: Hashes, e: Entry, data: Bytes): Result<Bytes, Error> {
    if |data| != e.size then Err(WrongSize)
    else if h.digest(data) != e.digest then Err(WrongDigest)
    else Ok(data)
  }

  function Assemble(h: Hashes, entries: seq<Entry>, source: Source, n: nat, total: nat)
    : Result<map<Path, Bytes>, Error>
  {
    if entries == [] then Ok(map[])
    else
      var e := entries[0];
      var data := Gather(h, e.keys, source, n, total);
      if data.Err? then Err(data.error)
      else if Sealed(h, e, data.value).Err? then Err(Sealed(h, e, data.value).error)
      else
        var rest := Assemble(h, entries[1..], source, n + |e.keys|, total + |data.value|);
        if rest.Err? then rest else Ok(map[e.path := data.value] + rest.value)
  }

  /** How the rest of a manifest follows from its next entry. */
  lemma AssembleNext(h: Hashes, entries: seq<Entry>, i: nat, source: Source, n: nat, total: nat)
    requires i < |entries|
    ensures var e, all := entries[i], Assemble(h, entries[i..], source, n, total);
            var data := Gather(h, e.keys, source, n, total);
            && (data.Err? ==> all == Err(data.error))
            && (data.Ok? && Sealed(h, e, data.value).Err? ==> all == Err(Sealed(h, e, data.value).error))
            && (data.Ok? && Sealed(h, e, data.value).Ok? ==>
                  all == Then(map[e.path := data.value],
                              Assemble(h, entries[i + 1..], source, n + |e.keys|, total + |data.value|)))
  {
    hide Gather, Sealed;
    assert entries[i..][0] == entries[i] && entries[i..][1..] == entries[i + 1..];
  }

  /** Rebuild the files of a manifest. */
  method Reassemble(h: Hashes, entries: seq<Entry>, source: Source) returns (r: Result<map<Path, Bytes>, Error>)
    ensures r == Assemble(h, entries, source, 0, 0)
  {
    hide Gather, Sealed, Assemble;
    var out: map<Path, Bytes> := map[];
    var total: nat, n: nat := 0, 0;
    assert entries[0..] == entries;
    ThenNone(Assemble(h, entries, source, 0, 0));
    for i := 0 to |entries|
      invariant Then(out, Assemble(h, entries[i..], source, n, total)) == Assemble(h, entries, source, 0, 0)
    {
      var e := entries[i];
      AssembleNext(h, entries, i, source, n, total);
      var data := GatherChunks(h, e.keys, source, n, total);
      if data.Err? {
        return Err(data.error);
      }
      var whole := Sealed(h, e, data.value);
      if whole.Err? {
        return Err(whole.error);
      }
      ThenOne(out, e.path, data.value, Assemble(h, entries[i + 1..], source, n + |e.keys|, total + |data.value|));
      out := out[e.path := data.value];
      total, n := total + |data.value|, n + |e.keys|;
    }
    assert entries[|entries|..] == [];
    AssembleNone(h, source, n, total);
    assert out + map[] == out;
    return Ok(out);
  }

  function Then(out: map<Path, Bytes>, rest: Result<map<Path, Bytes>, Error>): Result<map<Path, Bytes>, Error> {
    if rest.Err? then rest else Ok(out + rest.value)
  }

  lemma ThenNone(rest: Result<map<Path, Bytes>, Error>)
    ensures Then(map[], rest) == rest
  {
    if rest.Ok? {
      assert map[] + rest.value == rest.value;
    }
  }

  lemma ThenOne(out: map<Path, Bytes>, path: Path, data: Bytes, rest: Result<map<Path, Bytes>, Error>)
    ensures Then(out[path := data], rest) == Then(out, Then(map[path := data], rest))
  {
    if rest.Ok? {
      assert out[path := data] + rest.value == out + (map[path := data] + rest.value);
    }
  }

  method GatherChunks(h: Hashes, keys: seq<Key>, source: Source, n: nat, total: nat) returns (r: Result<Bytes, Error>)
    ensures r == Gather(h, keys, source, n, total)
  {
    var data: Bytes := [];
    assert keys[0..] == keys;
    JoinedNone(Gather(h, keys, source, n, total));
    for i := 0 to |keys|
      invariant Joined(data, Gather(h, keys[i..], source, n + i, total + |data|)) == Gather(h, keys, source, n, total)
    {
      assert keys[i..][0] == keys[i] && keys[i..][1..] == keys[i + 1..];
      var chunk := Checked(h, keys[i], source(n + i, keys[i]));
      if chunk.Err? {
        return Err(chunk.error);
      }
      if total + |data| + |chunk.value| > MAX_TOTAL {
        return Err(TooBig);
      }
      JoinedOne(data, chunk.value, Gather(h, keys[i + 1..], source, n + i + 1, total + |data| + |chunk.value|));
      data := data + chunk.value;
    }
    assert data + [] == data;
    return Ok(data);
  }

  function Joined(data: Bytes, rest: Result<Bytes, Error>): Result<Bytes, Error> {
    if rest.Err? then rest else Ok(data + rest.value)
  }

  lemma JoinedNone(rest: Result<Bytes, Error>)
    ensures Joined([], rest) == rest
  {
    if rest.Ok? {
      assert [] + rest.value == rest.value;
    }
  }

  lemma JoinedOne(data: Bytes, chunk: Bytes, rest: Result<Bytes, Error>)
    ensures Joined(data + chunk, rest) == Joined(data, if rest.Err? then rest else Ok(chunk + rest.value))
  {
    if rest.Ok? {
      assert data + chunk + rest.value == data + (chunk + rest.value);
    }
  }

  /** Rebuild one blob, such as the manifest a root names. */
  method ReassembleBytes(h: Hashes, size: int, digest: Digest, keys: seq<Key>, source: Source)
    returns (r: Result<Bytes, Error>)
    ensures r == Rebuilt(h, size, digest, keys, source)
  {
    var data := GatherChunks(h, keys, source, 0, 0);
    if data.Err? {
      return data;
    }
    if |data.value| != size || h.digest(data.value) != digest {
      return Err(WrongDigest);
    }
    return data;
  }

  function Rebuilt(h: Hashes, size: int, digest: Digest, keys: seq<Key>, source: Source): Result<Bytes, Error> {
    var data := Gather(h, keys, source, 0, 0);
    if data.Ok? && (|data.value| != size || h.digest(data.value) != digest) then Err(WrongDigest) else data
  }

  // ------------------------------------------------------------------ round trips

  function Concat(chunks: seq<Bytes>): Bytes {
    if chunks == [] then [] else chunks[0] + Concat(chunks[1..])
  }

  function Files(files: seq<File>): map<Path, Bytes> {
    if files == [] then map[] else map[files[0].path := files[0].content] + Files(files[1..])
  }

  function Total(files: seq<File>): nat {
    if files == [] then 0 else |files[0].content| + Total(files[1..])
  }

  /** Every chunk fits a payload and none is empty, they make the content up again, and they
      are no more than a manifest may list. */
  lemma {:induction false} ChunksMakeUp(content: Bytes)
    ensures Concat(Chunks(content)) == content
    ensures forall c :: c in Chunks(content) ==> 1 <= |c| <= CHUNK_SIZE
    ensures |Chunks(content)| == (|content| + CHUNK_SIZE - 1) / CHUNK_SIZE
    ensures |content| <= MAX_TOTAL ==> |Chunks(content)| <= MAX_CHUNKS
  {
    if |content| > CHUNK_SIZE {
      ChunksMakeUp(content[CHUNK_SIZE..]);
      assert content == content[..CHUNK_SIZE] + content[CHUNK_SIZE..];
    } else if content != [] {
      assert [content][1..] == [];
    }
  }

  /** The source answers these questions with these chunks. */
  predicate Delivers(h: Hashes, chunks: seq<Bytes>, source: Source, n: nat) {
    forall i :: 0 <= i < |chunks| ==> source(n + i, h.key(chunks[i])) == Some(chunks[i])
  }

  /** Gathering delivered chunks gives their content exactly when it fits what is left under
      the ceiling. */
  lemma {:induction false} GatherDelivered(h: Hashes, chunks: seq<Bytes>, source: Source, n: nat, total: nat)
    requires Delivers(h, chunks, source, n)
    ensures Gather(h, Keys(h, chunks), source, n, total)
         == if chunks == [] || total + |Concat(chunks)| <= MAX_TOTAL then Ok(Concat(chunks)) else Err(TooBig)
  {
    if chunks != [] {
      assert Keys(h, chunks)[1..] == Keys(h, chunks[1..]);
      assert source(n + 0, h.key(chunks[0])) == Some(chunks[0]);
      forall i | 0 <= i < |chunks[1..]| ensures source(n + 1 + i, h.key(chunks[1..][i])) == Some(chunks[1..][i]) {
        assert source(n + (i + 1), h.key(chunks[i + 1])) == Some(chunks[i + 1]);
      }
      GatherDelivered(h, chunks[1..], source, n + 1, total + |chunks[0]|);
    }
  }

  /** What a table that `build` filled answers. */
  function Serving(table: map<Key, Bytes>): Source {
    (n, key) => if key in table then Some(table[key]) else None
  }

  /** No two different chunks among these share a key. */
  predicate NoClash(h: Hashes, chunks: seq<Bytes>) {
    forall i, j :: 0 <= i < |chunks| && 0 <= j < |chunks| && h.key(chunks[i]) == h.key(chunks[j]) ==>
      chunks[i] == chunks[j]
  }

  lemma {:induction false} StoredServes(h: Hashes, chunks: seq<Bytes>, k: nat)
    requires NoClash(h, chunks) && k < |chunks|
    ensures var table := Stored(h, map[], chunks);
            h.key(chunks[k]) in table && table[h.key(chunks[k])] == chunks[k]
  {
    var front := chunks[..|chunks| - 1];
    if k < |front| {
      StoredServes(h, front, k);
    }
  }

  lemma {:induction false} FileDelivered(h: Hashes, files: seq<File>, i: nat, table: map<Key, Bytes>, n: nat)
    requires i < |files|
    requires forall k :: 0 <= k < |AllChunks(files)| ==>
      h.key(AllChunks(files)[k]) in table && table[h.key(AllChunks(files)[k])] == AllChunks(files)[k]
    ensures Delivers(h, Chunks(files[i].content), Serving(table), n)
  {
    var front := files[..|files| - 1];
    var before := AllChunks(front);
    var all := AllChunks(files);
    assert all == before + Chunks(files[|files| - 1].content);
    if i < |front| {
      forall k | 0 <= k < |before| ensures h.key(before[k]) in table && table[h.key(before[k])] == before[k] {
        assert all[k] == before[k];
      }
      FileDelivered(h, front, i, table, n);
    } else {
      var chunks := Chunks(files[i].content);
      forall k | 0 <= k < |chunks| ensures Serving(table)(n + k, h.key(chunks[k])) == Some(chunks[k]) {
        assert all[|before| + k] == chunks[k];
      }
    }
  }

  /** With every file's chunks delivered whenever asked for, the files come back exactly when
      they fit under the ceiling together. */
  lemma {:induction false} AssembleDelivered(h: Hashes, files: seq<File>, source: Source, n: nat, total: nat)
    requires forall i, m :: 0 <= i < |files| ==> Delivers(h, Chunks(files[i].content), source, m)
    requires total <= MAX_TOTAL
    ensures Assemble(h, Entries(h, files), source, n, total)
         == if total + Total(files) <= MAX_TOTAL then Ok(Files(files)) else Err(TooBig)
  {
    hide Gather, Delivers, Chunks, Concat, Keys, Sealed, Assemble;
    if files == [] {
      AssembleNone(h, source, n, total);
    } else {
      var f, rest := files[0], files[1..];
      assert Delivers(h, Chunks(f.content), source, n);
      assert Entries(h, files)[1..] == Entries(h, rest);
      AssembleFirst(h, f, Entries(h, files), source, n, total);
      if total + |f.content| <= MAX_TOTAL {
        forall i, m | 0 <= i < |rest| ensures Delivers(h, Chunks(rest[i].content), source, m) {
          assert rest[i] == files[i + 1];
        }
        AssembleDelivered(h, rest, source, n + |Chunks(f.content)|, total + |f.content|);
      }
    }
  }

  lemma AssembleNone(h: Hashes, source: Source, n: nat, total: nat)
    ensures Assemble(h, [], source, n, total) == Ok(map[])
  {
  }

  lemma AssembleFirst(h: Hashes, f: File, entries: seq<Entry>, source: Source, n: nat, total: nat)
    requires entries != [] && entries[0] == EntryOf(h, f) && total <= MAX_TOTAL
    requires Delivers(h, Chunks(f.content), source, n)
    ensures Assemble(h, entries, source, n, total)
         == if total + |f.content| > MAX_TOTAL then Err(TooBig)
            else Then(map[f.path := f.content],
                      Assemble(h, entries[1..], source, n + |Chunks(f.content)|, total + |f.content|))
  {
    hide Gather, Delivers, Chunks, Concat, Keys;
    ChunksMakeUp(f.content);
    GatherDelivered(h, Chunks(f.content), source, n, total);
  }

  /** Round trip: what was built reassembles from its own chunks into exactly the input files,
      if and only if they fit under the ceiling. */
  lemma BuiltReassembles(h: Hashes, files: seq<File>)
    requires NoClash(h, AllChunks(files))
    ensures Assemble(h, Entries(h, files), Serving(Stored(h, map[], AllChunks(files))), 0, 0)
         == if Total(files) <= MAX_TOTAL then Ok(Files(files)) else Err(TooBig)
  {
    hide Assemble, AllChunks, Delivers;
    var all := AllChunks(files);
    var table := Stored(h, map[], all);
    forall k | 0 <= k < |all| ensures h.key(all[k]) in table && table[h.key(all[k])] == all[k] {
      StoredServes(h, all, k);
    }
    forall i, m: nat | 0 <= i < |files| ensures Delivers(h, Chunks(files[i].content), Serving(table), m) {
      FileDelivered(h, files, i, table, m);
    }
    AssembleDelivered(h, files, Serving(table), 0, 0);
  }

  // ------------------------------------------------------------------ any source at all

  /** Two different byte strings with one full hash. */
  predicate Collides(h: Hashes, a: Bytes, b: Bytes) {
    a != b && h.digest(a) == h.digest(b)
  }

  predicate DistinctPaths(files: seq<File>) {
    forall i, j :: 0 <= i < j < |files| ==> files[i].path != files[j].path
  }

  /** What came back for `f` is its content, or a second byte string with its full hash. */
  predicate OwnOrTwin(h: Hashes, f: File, out: map<Path, Bytes>) {
    f.path in out && (out[f.path] == f.content || Collides(h, f.content, out[f.path]))
  }

  /** Whatever the source answers and however often it changes its mind: reassembly fails, or
      returns these paths and no others, each with the content built under it or with a string
      that collides with that content. */
  lemma AnySourceIsSafe(h: Hashes, files: seq<File>, source: Source)
    requires DistinctPaths(files)
    ensures var r := Assemble(h, Entries(h, files), source, 0, 0);
            r.Ok? ==>
              && r.value.Keys == Files(files).Keys
              && (forall i :: 0 <= i < |files| ==> OwnOrTwin(h, files[i], r.value))
              && (r.value == Files(files) || exists i :: 0 <= i < |files| && files[i].path in r.value
                                                       && Collides(h, files[i].content, r.value[files[i].path]))
  {
    hide Assemble, Collides;
    var r := Assemble(h, Entries(h, files), source, 0, 0);
    if r.Ok? {
      EveryFileOwnOrTwin(h, files, source, 0, 0);
      if forall i :: 0 <= i < |files| ==> r.value[files[i].path] == files[i].content {
        FilesByPath(files, r.value);
      }
    }
  }

  lemma {:induction false} EveryFileOwnOrTwin(h: Hashes, files: seq<File>, source: Source, n: nat, total: nat)
    requires DistinctPaths(files) && Assemble(h, Entries(h, files), source, n, total).Ok?
    ensures var out := Assemble(h, Entries(h, files), source, n, total).value;
            out.Keys == Files(files).Keys && forall i :: 0 <= i < |files| ==> OwnOrTwin(h, files[i], out)
  {
    hide Assemble, Gather, Chunks, Keys;
    if files == [] {
      AssembleNone(h, source, n, total);
    } else {
      var f, rest := files[0], files[1..];
      var data := AssembledFirst(h, Entries(h, files), source, n, total);
      assert Entries(h, files)[1..] == Entries(h, rest);
      var m, sum := n + |Entries(h, files)[0].keys|, total + |data|;
      EveryFileOwnOrTwin(h, rest, source, m, sum);
      HeadAndTail(h, files, data, Assemble(h, Entries(h, rest), source, m, sum).value);
    }
  }

  lemma HeadAndTail(h: Hashes, files: seq<File>, data: Bytes, out: map<Path, Bytes>)
    requires files != [] && DistinctPaths(files) && h.digest(data) == h.digest(files[0].content)
    requires out.Keys == Files(files[1..]).Keys
    requires forall i :: 0 <= i < |files| - 1 ==> OwnOrTwin(h, files[1..][i], out)
    ensures var all := map[files[0].path := data] + out;
            all.Keys == Files(files).Keys && forall i :: 0 <= i < |files| ==> OwnOrTwin(h, files[i], all)
  {
    var all := map[files[0].path := data] + out;
    PathOfTail(files[1..], files[0].path);
    forall i | 0 <= i < |files| ensures OwnOrTwin(h, files[i], all) {
      if i > 0 {
        assert files[1..][i - 1] == files[i];
      }
    }
  }

  lemma {:induction false} PathOfTail(files: seq<File>, path: Path)
    ensures path in Files(files) ==> exists i :: 0 <= i < |files| && files[i].path == path
  {
    if files != [] && path in Files(files) && path != files[0].path {
      PathOfTail(files[1..], path);
      var i :| 0 <= i < |files| - 1 && files[1..][i].path == path;
      assert files[i + 1].path == path;
    }
  }

  /** A map with these paths and these contents is the files. */
  lemma {:induction false} FilesByPath(files: seq<File>, out: map<Path, Bytes>)
    requires DistinctPaths(files) && out.Keys == Files(files).Keys
    requires forall i :: 0 <= i < |files| ==> files[i].path in out && out[files[i].path] == files[i].content
    ensures out == Files(files)
  {
    if files != [] {
      var rest := files[1..];
      PathOfTail(rest, files[0].path);
      forall i | 0 <= i < |rest| ensures rest[i].path != files[0].path && rest[i] == files[i + 1] {
      }
      FilesByPath(rest, out - {files[0].path});
    }
  }

  lemma AssembledFirst(h: Hashes, entries: seq<Entry>, source: Source, n: nat, total: nat) returns (data: Bytes)
    requires entries != [] && Assemble(h, entries, source, n, total).Ok?
    ensures |data| == entries[0].size && h.digest(data) == entries[0].digest
    ensures var rest := Assemble(h, entries[1..], source, n + |entries[0].keys|, total + |data|);
            rest.Ok? && Assemble(h, entries, source, n, total).value == map[entries[0].path := data] + rest.value
  {
    hide Gather;
    data := Gather(h, entries[0].keys, source, n, total).value;
  }

  /** The same for one blob, so for the manifest behind a root: any source fails, returns it,
      or collides with it; its own chunks return it exactly when it fits. */
  lemma BlobIsSafe(h: Hashes, blob: Bytes, source: Source)
    ensures var r := Rebuilt(h, |blob|, h.digest(blob), Keys(h, Chunks(blob)), source);
            r.Ok? ==> r.value == blob || Collides(h, blob, r.value)
    ensures NoClash(h, Chunks(blob)) ==>
              Rebuilt(h, |blob|, h.digest(blob), Keys(h, Chunks(blob)), Serving(Stored(h, map[], Chunks(blob))))
              == if |blob| <= MAX_TOTAL then Ok(blob) else Err(TooBig)
  {
    hide Gather, Stored;
    ChunksMakeUp(blob);
    if NoClash(h, Chunks(blob)) {
      var table := Stored(h, map[], Chunks(blob));
      forall k | 0 <= k < |Chunks(blob)|
        ensures Serving(table)(0 + k, h.key(Chunks(blob)[k])) == Some(Chunks(blob)[k])
      {
        StoredServes(h, Chunks(blob), k);
      }
      GatherDelivered(h, Chunks(blob), Serving(table), 0, 0);
    }
  }

  // ------------------------------------------------------------------ bounds

  predicate Wellformed(entries: seq<Entry>) {
    |entries| <= MAX_FILES && forall i :: 0 <= i < |entries| ==> entries[i].size >= 0 && |entries[i].keys| <= MAX_CHUNKS
  }

  lemma {:induction false} OneWithinTotal(files: seq<File>, i: nat)
    requires i < |files|
    ensures |files[i].content| <= Total(files)
  {
    if i > 0 {
      OneWithinTotal(files[1..], i - 1);
    }
  }

  /** A manifest built from files that fit is one that its reader takes. */
  lemma BuiltIsWellformed(h: Hashes, files: seq<File>)
    requires |files| <= MAX_FILES && Total(files) <= MAX_TOTAL
    ensures Wellformed(Entries(h, files))
    ensures |Entries(h, files)| <= MAX_FILES && forall e :: e in Entries(h, files) ==>
            e.size >= 0 && |e.keys| <= MAX_CHUNKS
  {
    forall i | 0 <= i < |files| ensures |Entries(h, files)[i].keys| <= MAX_CHUNKS {
      OneWithinTotal(files, i);
      ChunksMakeUp(files[i].content);
    }
  }

  /** The source answered this for every key, and each answer hashes to the key it was asked for. */
  ghost predicate Answered(h: Hashes, keys: seq<Key>, source: Source, n: nat, chunks: seq<Bytes>) {
    && |chunks| == |keys|
    && forall i :: 0 <= i < |keys| ==> source(n + i, keys[i]) == Some(chunks[i]) && h.key(chunks[i]) == keys[i]
  }

  /** What is gathered is what the source answered, key by key and each answer checked; and if
      every answer is there and checks, it is gathered unless it passes the ceiling. */
  lemma {:induction false} GatheredExactly(h: Hashes, keys: seq<Key>, source: Source, n: nat, total: nat, data: Bytes)
    requires total <= MAX_TOTAL
    ensures Gather(h, keys, source, n, total) == Ok(data) <==>
              (exists chunks :: Answered(h, keys, source, n, chunks) && Concat(chunks) == data)
                && total + |data| <= MAX_TOTAL
  {
    if keys == [] {
      assert Answered(h, keys, source, n, []) && Concat([]) == [];
    } else {
      var chunk := Checked(h, keys[0], source(n, keys[0]));
      var rest := Gather(h, keys[1..], source, n + 1, total + if chunk.Ok? then |chunk.value| else 0);
      hide Checked, Answered, Concat;
      if Gather(h, keys, source, n, total) == Ok(data) {
        GatheredExactly(h, keys[1..], source, n + 1, total + |chunk.value|, rest.value);
        var others :| Answered(h, keys[1..], source, n + 1, others) && Concat(others) == rest.value;
        AnsweredFirst(h, keys, source, n, [chunk.value] + others);
      }
      if chunks :| Answered(h, keys, source, n, chunks) && Concat(chunks) == data && total + |data| <= MAX_TOTAL {
        AnsweredFirst(h, keys, source, n, chunks);
        GatheredExactly(h, keys[1..], source, n + 1, total + |chunks[0]|, Concat(chunks[1..]));
      }
    }
  }

  lemma AnsweredFirst(h: Hashes, keys: seq<Key>, source: Source, n: nat, chunks: seq<Bytes>)
    requires keys != [] && chunks != []
    ensures Answered(h, keys, source, n, chunks) <==>
              source(n, keys[0]) == Some(chunks[0]) && h.key(chunks[0]) == keys[0]
              && Answered(h, keys[1..], source, n + 1, chunks[1..])
    ensures Concat(chunks) == chunks[0] + Concat(chunks[1..])
  {
    if Answered(h, keys[1..], source, n + 1, chunks[1..]) && source(n, keys[0]) == Some(chunks[0])
      && h.key(chunks[0]) == keys[0] {
      forall i | 0 <= i < |keys| ensures source(n + i, keys[i]) == Some(chunks[i]) && h.key(chunks[i]) == keys[i] {
        if i > 0 {
          assert keys[1..][i - 1] == keys[i] && chunks[1..][i - 1] == chunks[i];
        }
      }
    }
    if Answered(h, keys, source, n, chunks) {
      forall i | 0 <= i < |keys| - 1
        ensures source(n + 1 + i, keys[1..][i]) == Some(chunks[1..][i]) && h.key(chunks[1..][i]) == keys[1..][i]
      {
        assert source(n + (i + 1), keys[i + 1]) == Some(chunks[i + 1]);
      }
    }
  }

  /** However many bytes a manifest claims and whatever the source answers, what is gathered
      stays under the ceiling. */
  lemma {:induction false} GatherIsBounded(h: Hashes, keys: seq<Key>, source: Source, n: nat, total: nat)
    requires total <= MAX_TOTAL
    ensures var r := Gather(h, keys, source, n, total);
            r.Ok? ==> total + |r.value| <= MAX_TOTAL
  {
    if keys != [] {
      var chunk := Checked(h, keys[0], source(n, keys[0]));
      if chunk.Ok? && total + |chunk.value| <= MAX_TOTAL {
        GatherIsBounded(h, keys[1..], source, n + 1, total + |chunk.value|);
      }
    }
  }
}
