/** The chunk-copy programs: `XputFile` and `XputBuffer` cut a file into chunks and store them
    under their identifiers (CIDs); the server hands out the CIDs in blocks; the client fetches
    the chunks and writes the file. A string is a sequence of bytes, one `char` each. */
module ChunkCopy {
  import opened Basics
  import opened Digits
  import opened Sequences
  import opened Texts

  const XIA_MAXBUF: nat := 15600
  const XIA_MAXCHUNK: nat := 15600
  const DEFAULT_CHUNK_SIZE: nat := 2000
  const CHUNKSIZE: nat := 1024
  const NUM_CHUNKS: nat := 10

  // ---------------------------------------------------------------- storing

  function Cids(parts: seq<string>, hash: string -> string): seq<string> {
    seq(|parts|, i requires 0 <= i < |parts| => hash(parts[i]))
  }

  /** The store after putting the parts, one by one. */
  function Stored(chunks: map<string, string>, parts: seq<string>, hash: string -> string): map<string, string> {
    if parts == [] then chunks
    else
      var last := parts[|parts| - 1];
      Stored(chunks, parts[..|parts| - 1], hash)[hash(last) := last]
  }

  lemma StoredMore(chunks: map<string, string>, parts: seq<string>, part: string, hash: string -> string)
    ensures Stored(chunks, parts + [part], hash) == Stored(chunks, parts, hash)[hash(part) := part]
    ensures Cids(parts + [part], hash) == Cids(parts, hash) + [hash(part)]
  {
    assert (parts + [part])[..|parts|] == parts;
  }

  /** Under a part's CID stands the last part with that CID. */
  lemma {:induction false} StoredPart(chunks: map<string, string>, parts: seq<string>, hash: string -> string, i: nat)
    returns (k: nat)
    requires i < |parts|
    ensures i <= k < |parts| && hash(parts[k]) == hash(parts[i])
    ensures hash(parts[i]) in Stored(chunks, parts, hash)
    ensures Stored(chunks, parts, hash)[hash(parts[i])] == parts[k]
    decreases |parts|
  {
    var n := |parts| - 1;
    if hash(parts[n]) == hash(parts[i]) {
      k := n;
    } else {
      k := StoredPart(chunks, parts[..n], hash, i);
    }
  }

  /** The store has chunks with these CIDs, namely `found`. */
  ghost predicate Holding(chunks: map<string, string>, cids: seq<string>, found: seq<string>) {
    |cids| == |found| && forall i :: 0 <= i < |cids| ==> cids[i] in chunks && chunks[cids[i]] == found[i]
  }

  /** What is found under the CIDs of the parts once they are all stored. */
  function Found(chunks: map<string, string>, parts: seq<string>, hash: string -> string): seq<string> {
    seq(|parts|, i requires 0 <= i < |parts| =>
      var stored := Stored(chunks, parts, hash);
      if hash(parts[i]) in stored then stored[hash(parts[i])] else "")
  }

  lemma FoundHolds(chunks: map<string, string>, parts: seq<string>, hash: string -> string)
    ensures Holding(Stored(chunks, parts, hash), Cids(parts, hash), Found(chunks, parts, hash))
  {
    forall i | 0 <= i < |parts| ensures hash(parts[i]) in Stored(chunks, parts, hash) {
      var k := StoredPart(chunks, parts, hash, i);
    }
  }

  lemma FoundAt(chunks: map<string, string>, parts: seq<string>, hash: string -> string, i: nat) returns (k: nat)
    requires i < |parts|
    ensures i <= k < |parts| && hash(parts[k]) == hash(parts[i]) && Found(chunks, parts, hash)[i] == parts[k]
  {
    k := StoredPart(chunks, parts, hash, i);
  }

  lemma FoundAll(chunks: map<string, string>, parts: seq<string>, hash: string -> string)
    requires NoCollision(parts, hash)
    ensures Found(chunks, parts, hash) == parts
  {
    var found := Found(chunks, parts, hash);
    forall i | 0 <= i < |parts| ensures found[i] == parts[i] {
      var k := FoundAt(chunks, parts, hash, i);
    }
  }

  /** No part can be replaced by a longer one, so if the sum is right every part is. */
  lemma FoundFlat(chunks: map<string, string>, parts: seq<string>, width: nat, hash: string -> string)
    requires forall k :: 0 <= k < |parts| ==> |parts[k]| <= width && (k < |parts| - 1 ==> |parts[k]| == width)
    requires Flatten(Found(chunks, parts, hash)) == Flatten(parts)
    ensures Found(chunks, parts, hash) == parts
  {
    var found := Found(chunks, parts, hash);
    forall i | 0 <= i < |parts| ensures |found[i]| <= |parts[i]| {
      var k := FoundAt(chunks, parts, hash, i);
    }
    ShorterParts(found, parts);
    SameParts(found, parts);
  }

  lemma FoundApart(chunks: map<string, string>, parts: seq<string>, hash: string -> string)
    requires Found(chunks, parts, hash) == parts
    ensures NoCollision(parts, hash)
  {
    forall i, j | 0 <= i < |parts| && 0 <= j < |parts| && hash(parts[i]) == hash(parts[j])
      ensures parts[i] == parts[j]
    {
      assert Found(chunks, parts, hash)[i] == Found(chunks, parts, hash)[j];
    }
  }

  /** The chunks found make up the file if and only if no two different parts share a CID. */
  lemma FoundExactly(chunks: map<string, string>, file: string, width: nat, hash: string -> string)
    requires width > 0
    ensures var parts := Blocks(file, width);
            Flatten(Found(chunks, parts, hash)) == file <==> NoCollision(parts, hash)
  {
    var parts := Blocks(file, width);
    FlattenBlocks(file, width);
    if NoCollision(parts, hash) {
      FoundAll(chunks, parts, hash);
    }
    if Flatten(Found(chunks, parts, hash)) == file {
      FoundFlat(chunks, parts, width, hash);
      FoundApart(chunks, parts, hash);
    }
  }

  /** The content store of the local cache. */
  class Store {
    const hash: string -> string
    var chunks: map<string, string>

    constructor (hash: string -> string)
      ensures this.hash == hash && chunks == map[]
    {
      this.hash := hash;
      chunks := map[];
    }

    method XputChunk(data: string) returns (rc: int, cid: string)
      modifies this
      ensures rc == if |data| > 15600 then -1 else 0
      ensures if 0 < |data| <= 15600 then cid == hash(data) && chunks == old(chunks)[cid := data]
              else cid == "" && chunks == old(chunks)
    {
      cid := "";
      if |data| > XIA_MAXCHUNK {
        return -1, cid;
      }
      if |data| == 0 {
        return 0, cid;
      }
      cid := hash(data);
      chunks := chunks[cid := data];
      rc := 0;
    }
  }

  /** A read that yields something yields the next chunk. */
  lemma ReadNext(parts: seq<string>, i: nat, f: string, pos: nat, size: nat)
    requires size > 0 && pos < |f| && i <= |parts| && Blocks(Remaining(f, pos), size) == parts[i..]
    ensures var buf := Substr(f, pos, size);
            && i < |parts| && parts[..i + 1] == parts[..i] + [buf]
            && Blocks(Remaining(f, pos + |buf|), size) == parts[i + 1..]
  {
    BlocksNext(parts, i, f, pos, size);
    RemainingNext(f, pos, size);
    assert parts[..i + 1] == parts[..i] + [parts[i]];
  }

  lemma RemainingNext(f: string, pos: nat, size: nat)
    requires pos <= |f|
    ensures Remaining(f, pos + |Substr(f, pos, size)|) == Remaining(f, pos + size)
  {
  }

  /** The number of chunks is worked out before the file is read. */
  method NumChunks(data: string, size: nat) returns (numChunks: nat)
    requires size > 0
    ensures numChunks == |Blocks(data, size)|
  {
    BlockCount(data, size);
    numChunks := |data| / size;
    if |data| % size != 0 {
      numChunks := numChunks + 1;
    }
  }

  /** The size of the chunks that are asked for. */
  method ClampSize(chunkSize: nat) returns (size: nat)
    ensures size == if chunkSize == 0 then 2000 else if chunkSize <= 15600 then chunkSize else 15600
  {
    size := chunkSize;
    if size == 0 {
      size := DEFAULT_CHUNK_SIZE;
    } else if size > XIA_MAXBUF {
      size := XIA_MAXBUF;
    }
  }

  /** `XputFile`; `None` is a file that is not there. */
  method XputFile(store: Store, file: Option<string>, chunkSize: nat) returns (rc: int, infoList: seq<string>)
    modifies store
    ensures file.None? ==> rc == -1 && infoList == [] && store.chunks == old(store.chunks)
    ensures file.Some? ==>
              var size := if chunkSize == 0 then 2000 else if chunkSize <= 15600 then chunkSize else 15600;
              var parts := Blocks(file.value, size);
              && rc == |parts| && infoList == Cids(parts, store.hash)
              && store.chunks == Stored(old(store.chunks), parts, store.hash)
  {
    infoList := [];
    var size := ClampSize(chunkSize);
    if file == None {
      return -1, infoList;
    }
    var numChunks := NumChunks(file.value, size);
    var i;
    i, infoList := PutReads(store, file.value, size);
    rc := if i != numChunks then -1 else i;
  }

  /** `XputFile`'s loop; the end-of-file flag is set by the first read that comes up short. */
  method PutReads(store: Store, f: string, size: nat) returns (i: nat, infoList: seq<string>)
    requires 0 < size <= XIA_MAXCHUNK
    modifies store
    ensures var parts := Blocks(f, size);
            && i == |parts| && infoList == Cids(parts, store.hash)
            && store.chunks == Stored(old(store.chunks), parts, store.hash)
  {
    ghost var parts := Blocks(f, size);
    i, infoList := 0, [];
    var pos, eof := 0, false;
    assert Remaining(f, 0) == f;
    while !eof
      invariant 0 <= pos <= |f| && (eof ==> pos == |f|) && 0 <= i <= |parts|
      invariant Blocks(Remaining(f, pos), size) == parts[i..]
      invariant infoList == Cids(parts[..i], store.hash)
      invariant store.chunks == Stored(old(store.chunks), parts[..i], store.hash)
      decreases !eof, |f| - pos
    {
      var buf := Substr(f, pos, size);
      eof := |buf| < size;
      if |buf| > 0 {
        infoList := PutRead(store, f, pos, size, infoList, old(store.chunks), parts, i);
        i := i + 1;
        pos := pos + |buf|;
      }
    }
    assert parts[..i] == parts;
  }

  /** One turn of `XputFile`'s loop that has read something; `parts` are all chunks, of which `i`
      have been stored. */
  method PutRead(store: Store, f: string, pos: nat, size: nat, infoList: seq<string>,
                 ghost before: map<string, string>, ghost parts: seq<string>, ghost i: nat)
    returns (infos: seq<string>)
    requires 0 < size <= XIA_MAXCHUNK && pos < |f| && i <= |parts|
    requires Blocks(Remaining(f, pos), size) == parts[i..]
    requires infoList == Cids(parts[..i], store.hash) && store.chunks == Stored(before, parts[..i], store.hash)
    modifies store
    ensures i < |parts| && Blocks(Remaining(f, pos + |Substr(f, pos, size)|), size) == parts[i + 1..]
    ensures infos == Cids(parts[..i + 1], store.hash) && store.chunks == Stored(before, parts[..i + 1], store.hash)
  {
    ReadNext(parts, i, f, pos, size);
    infos := PutNext(store, Substr(f, pos, size), infoList, before, parts[..i]);
  }

  /** One more chunk is stored and noted. */
  method PutNext(store: Store, buf: string, infoList: seq<string>, ghost before: map<string, string>,
                 ghost done: seq<string>)
    returns (infos: seq<string>)
    requires 0 < |buf| <= XIA_MAXCHUNK
    requires infoList == Cids(done, store.hash) && store.chunks == Stored(before, done, store.hash)
    modifies store
    ensures infos == Cids(done + [buf], store.hash)
    ensures store.chunks == Stored(before, done + [buf], store.hash)
  {
    StoredMore(before, done, buf, store.hash);
    var rc, cid := store.XputChunk(buf);
    infos := infoList + [cid];
  }

  /** One turn of `XputBuffer`'s loop; `parts` are all chunks, of which `i` have been stored. */
  method PutPiece(store: Store, data: string, p: nat, len: nat, size: nat, infoList: seq<string>,
                  ghost before: map<string, string>, ghost parts: seq<string>, ghost i: nat)
    returns (infos: seq<string>, left: nat)
    requires 0 < size <= XIA_MAXCHUNK && i < |parts| && len == |Remaining(data, p)|
    requires Blocks(Remaining(data, p), size) == parts[i..]
    requires infoList == Cids(parts[..i], store.hash) && store.chunks == Stored(before, parts[..i], store.hash)
    modifies store
    ensures left == |Remaining(data, p + size)|
    ensures Blocks(Remaining(data, p + size), size) == parts[i + 1..]
    ensures infos == Cids(parts[..i + 1], store.hash) && store.chunks == Stored(before, parts[..i + 1], store.hash)
  {
    BlocksNext(parts, i, data, p, size);
    var count := if len < size then len else size;
    var buf := Substr(data, p, count);
    assert buf == parts[i];
    assert parts[..i + 1] == parts[..i] + [parts[i]];
    infos := PutNext(store, buf, infoList, before, parts[..i]);
    left := len - count;
  }

  /** `XputBuffer` stores the same chunks. */
  method XputBuffer(store: Store, data: string, chunkSize: nat) returns (rc: int, infoList: seq<string>)
    modifies store
    ensures var size := if chunkSize == 0 then 2000 else if chunkSize <= 15600 then chunkSize else 15600;
            var parts := Blocks(data, size);
            && rc == |parts| && infoList == Cids(parts, store.hash)
            && store.chunks == Stored(old(store.chunks), parts, store.hash)
  {
    infoList := [];
    var size := ClampSize(chunkSize);
    var len := |data|;
    var numChunks := NumChunks(data, size);
    ghost var parts := Blocks(data, size);
    var p: nat := 0;
    var i := 0;
    assert Remaining(data, 0) == data;
    while i < numChunks
      invariant 0 <= i <= numChunks == |parts| && len == |Remaining(data, p)|
      invariant Blocks(Remaining(data, p), size) == parts[i..]
      invariant infoList == Cids(parts[..i], store.hash)
      invariant store.chunks == Stored(old(store.chunks), parts[..i], store.hash)
    {
      infoList, len := PutPiece(store, data, p, len, size, infoList, old(store.chunks), parts, i);
      p := p + size;
      i := i + 1;
    }
    assert parts[..i] == parts;
    rc := if i != numChunks then -1 else i;
  }

  // ---------------------------------------------------------------- the server

  /** The text behind a command word; empty when the command is too short to have any. */
  function Argument(command: string, from: nat): string {
    if from <= |command| then command[from..] else ""
  }

  datatype Command = Get(fname: string) | Block(text: string) | Done | Invalid

  function Parse(command: string): Command {
    if StartsWith(command, "get") then Get(Argument(command, 4))
    else if StartsWith(command, "block") then Block(Argument(command, 6))
    else if StartsWith(command, "done") then Done
    else Invalid
  }

  /** CIDs with a space in front of each. */
  function Spaced(cids: seq<string>): string {
    if cids == [] then "" else " " + cids[0] + Spaced(cids[1..])
  }

  function Least(a: int, b: int): int {
    if a < b then a else b
  }

  /** The reply to `block` with the arguments `text`, given the CIDs there are. */
  function BlockReply(text: string, cids: seq<string>): string {
    var colon := IndexOf(text, ':', 0);
    if colon == |text| then "FAIL: invalid block command"
    else "OK:" + BlockText(Atoi(text[..colon]), Atoi(text[colon + 1..]), cids)
  }

  /** The `n` CIDs from the one with number `s` on, as far as they exist. */
  function BlockText(s: int, n: int, cids: seq<string>): string {
    var end := Least(s + n, |cids|);
    if 0 <= s < end then Spaced(cids[s..end]) else ""
  }

  class ChunkServer {
    const store: Store
    /** The files on the server's disk. */
    const files: map<string, string>
    var info: seq<string>
    var count: int

    constructor (store: Store, files: map<string, string>)
      ensures this.store == store && this.files == files && Valid() && info == []
    {
      this.store, this.files := store, files;
      info, count := [], 0;
    }

    ghost predicate Valid()
      reads this
    {
      count == |info| || (count == -1 && info == [])
    }

    /** `get`: chunk the file and reply with the number of chunks. */
    method GetFile(fname: string) returns (reply: string)
      modifies this, store
      ensures Valid()
      ensures if fname in files then
                var parts := Blocks(files[fname], 1024);
                && info == Cids(parts, store.hash) && reply == "OK: " + Print(|parts|, 10)
                && store.chunks == Stored(old(store.chunks), parts, store.hash)
              else info == [] && reply == "FAIL: File (" + fname + ") not found" && store.chunks == old(store.chunks)
    {
      count, info := XputFile(store, if fname in files then Some(files[fname]) else None, CHUNKSIZE);
      if count < 0 {
        reply := "FAIL: File (" + fname + ") not found";
      } else {
        reply := "OK: " + Print(count, 10);
      }
    }

    /** `block start:number`: reply with that many CIDs, as far as there are any. The number in
        front of the colon must not be negative. */
    method ListBlock(text: string) returns (reply: string)
      requires Valid()
      requires var colon := IndexOf(text, ':', 0); colon < |text| ==> Atoi(text[..colon]) >= 0
      ensures reply == BlockReply(text, info)
    {
      var colon := IndexOf(text, ':', 0);
      if colon == |text| {
        return "FAIL: invalid block command";
      }
      var s := Atoi(text[..colon]);
      var e := s + Atoi(text[colon + 1..]);
      reply := AppendCids("OK:", s, e);
    }

    /** The loop of `block`. */
    method AppendCids(start: string, s: nat, e: int) returns (reply: string)
      requires Valid()
      ensures reply == start + BlockText(s, e - s, info)
    {
      reply := start;
      ghost var end := Least(e, |info|);
      ghost var goal := if s < end then start + Spaced(info[s..end]) else start;
      var i := s;
      while i < e && i < count
        invariant s <= i && (s < end ==> i <= end)
        invariant s < end ==> reply + Spaced(info[i..end]) == goal
        invariant s >= end ==> reply == goal
      {
        assert info[i..end][0] == info[i] && info[i..end][1..] == info[i + 1..end];
        SpacedStep(reply, info[i..end]);
        reply := reply + " ";
        reply := reply + info[i];
        i := i + 1;
      }
    }

    /** `done`: remove the chunks from the store. */
    method Close()
      requires Valid()
      modifies this, store
      ensures Valid() && info == [] && store.chunks == Without(old(store.chunks), old(info))
    {
      var i := 0;
      while i < count
        invariant 0 <= i && (count >= 0 ==> i <= count) && count == old(count) && info == old(info)
        invariant i <= |info| && store.chunks == Without(old(store.chunks), info[..i])
      {
        assert info[..i + 1] == info[..i] + [info[i]];
        store.chunks := Without(store.chunks, [info[i]]);
        i := i + 1;
      }
      assert info[..i] == info;
      info, count := [], 0;
    }

    /** The command loop's treatment of one command; `open` is false when it ends the session. */
    method Request(command: string) returns (reply: string, open: bool)
      requires Valid()
      requires match Parse(command)
               case Block(text) => var colon := IndexOf(text, ':', 0); colon < |text| ==> Atoi(text[..colon]) >= 0
               case _ => true
      modifies this, store
      ensures Valid() && open == !Parse(command).Done?
      ensures match Parse(command)
              case Get(fname) =>
                GetDone(files, store.hash, fname, old(store.chunks), store.chunks, info, reply)
              case Block(text) =>
                reply == BlockReply(text, info) && info == old(info) && store.chunks == old(store.chunks)
              case Done =>
                info == [] && store.chunks == Without(old(store.chunks), old(info))
              case Invalid =>
                reply == "FAIL: invalid command (" + command + ")\n"
                && info == old(info) && store.chunks == old(store.chunks)
    {
      open, reply := true, "";
      if StartsWith(command, "get") {
        reply := GetFile(Argument(command, 4));
      } else if StartsWith(command, "block") {
        reply := ListBlock(Argument(command, 6));
      } else if StartsWith(command, "done") {
        Close();
        open := false;
      } else {
        reply := "FAIL: invalid command (" + command + ")\n";
      }
    }
  }

  function Without(chunks: map<string, string>, cids: seq<string>): map<string, string> {
    map cid | cid in chunks && cid !in cids :: chunks[cid]
  }

  /** What `get` does to the store and the server's list, and what it replies. */
  ghost predicate GetDone(files: map<string, string>, hash: string -> string, fname: string,
                          before: map<string, string>, after: map<string, string>, info: seq<string>, reply: string) {
    if fname in files then
      var parts := Blocks(files[fname], 1024);
      && info == Cids(parts, hash) && reply == "OK: " + Print(|parts|, 10)
      && after == Stored(before, parts, hash)
    else info == [] && reply == "FAIL: File (" + fname + ") not found" && after == before
  }

  lemma SpacedStep(reply: string, cids: seq<string>)
    requires cids != []
    ensures reply + Spaced(cids) == reply + " " + cids[0] + Spaced(cids[1..])
  {
  }

  // ---------------------------------------------------------------- the client

  /** The CIDs in the text of a reply: separated, not ended, by spaces. */
  function Separated(chunks: string): seq<string> {
    var p := Cut(chunks, ' ');
    p.items + [p.rest]
  }

  /** The chunks with these CIDs, joined; `None` when one cannot be had. */
  function Fetched(store: map<string, string>, cids: seq<string>): Option<string> {
    if cids == [] then Some("")
    else if cids[0] !in store then None
    else match Fetched(store, cids[1..])
      case None => None
      case Some(more) => Some(store[cids[0]] + more)
  }

  /** Filling the client's request table, which has ten places. */
  method ChunkList(cs: array<string>, chunks: string) returns (n: nat)
    requires cs.Length == 10 && |Separated(chunks)| <= 10
    modifies cs
    ensures n == |Separated(chunks)| && cs[..n] == Separated(chunks)
  {
    ghost var goal, last := Cut(chunks, ' ').items, Cut(chunks, ' ').rest;
    var p := 0;
    n := 0;
    while IndexOf(chunks, ' ', p) < |chunks|
      invariant p <= |chunks| && 0 <= n <= |goal|
      invariant CutFrom(chunks, ' ', p) == Pieces(goal[n..], last)
      invariant cs[..n] == goal[..n]
      decreases |chunks| - p
    {
      p := TakeItem(cs, n, chunks, p, goal, last);
      n := n + 1;
    }
    assert n == |goal| && chunks[p..] == last;
    cs[n] := chunks[p..];
    n := n + 1;
  }

  /** One turn of the loop: the text up to the next space goes into the table. */
  method TakeItem(cs: array<string>, n: nat, chunks: string, p: nat, ghost goal: seq<string>, ghost last: string)
    returns (next: nat)
    requires p <= |chunks| && n <= |goal| < cs.Length && IndexOf(chunks, ' ', p) < |chunks|
    requires CutFrom(chunks, ' ', p) == Pieces(goal[n..], last) && cs[..n] == goal[..n]
    modifies cs
    ensures p < next <= |chunks| && n < |goal|
    ensures CutFrom(chunks, ' ', next) == Pieces(goal[n + 1..], last) && cs[..n + 1] == goal[..n + 1]
  {
    CutStep(goal, n, chunks, ' ', p);
    var end := IndexOf(chunks, ' ', p);
    cs[n] := chunks[p..end];
    next := end + 1;
    assert goal[..n + 1] == goal[..n] + [goal[n]];
  }

  /** `getFileData`: fetch the chunks of one reply and append them to the file. */
  method GetFileData(store: Store, chunks: string, f: string) returns (ok: bool, out: string)
    requires |Separated(chunks)| <= 10
    ensures ok == Fetched(store.chunks, Separated(chunks)).Some?
    ensures ok ==> out == f + Fetched(store.chunks, Separated(chunks)).value
  {
    var cs := new string[NUM_CHUNKS];
    var n := ChunkList(cs, chunks);
    ghost var cids := Separated(chunks);
    out := f;
    var i := 0;
    while i < n
      invariant 0 <= i <= n && cs[..n] == cids
      invariant Appended(f, Fetched(store.chunks, cids)) == Appended(out, Fetched(store.chunks, cids[i..]))
    {
      assert cs[i] == cs[..n][i] == cids[i..][0];
      FetchedStep(store.chunks, cids, i, out);
      if cs[i] !in store.chunks {
        return false, out;
      }
      out := out + store.chunks[cs[i]];
      i := i + 1;
    }
    return true, out;
  }

  ghost function Appended(f: string, more: Option<string>): Option<string> {
    match more
    case None => None
    case Some(data) => Some(f + data)
  }

  lemma FetchedStep(store: map<string, string>, cids: seq<string>, i: nat, out: string)
    requires i < |cids|
    ensures if cids[i] in store
            then Appended(out, Fetched(store, cids[i..]))
              == Appended(out + store[cids[i]], Fetched(store, cids[i + 1..]))
            else Fetched(store, cids[i..]) == None
  {
    assert cids[i..][1..] == cids[i + 1..];
    if cids[i] in store && Fetched(store, cids[i + 1..]).Some? {
      Associate(out, store[cids[i]], Fetched(store, cids[i + 1..]).value);
    }
  }

  // ---------------------------------------------------------------- commands and replies as text

  lemma GetCommand(fname: string)
    ensures Parse("get " + fname) == Get(fname)
  {
    var command := "get " + fname;
    assert command[..3] == "get" && command[4..] == fname;
  }

  lemma BlockCommand(text: string)
    ensures Parse("block " + text) == Block(text)
  {
    var command := "block " + text;
    assert command[0] == 'b' && "get"[0] == 'g';
    assert command[..5] == "block" && command[6..] == text;
  }

  /** A command is told by its first word; one character behind it is skipped, if there is one. */
  lemma CommandsRead(word: string, x: string)
    ensures var arg := if x == "" then "" else x[1..];
            && Parse("get" + x) == Get(arg) && Parse("block" + x) == Block(arg) && Parse("done" + x) == Done
    ensures (forall y :: word != "get" + y && word != "block" + y && word != "done" + y) ==> Parse(word) == Invalid
  {
    var a, b, c := "get" + x, "block" + x, "done" + x;
    assert a[..3] == "get" && b[..5] == "block" && c[..4] == "done";
    assert b[0] == 'b' && c[0] == 'd' && "get"[0] == 'g' && "block"[0] == 'b';
    if x != "" {
      assert a[4..] == x[1..] && b[6..] == x[1..];
    }
    if |word| >= 3 {
      assert word == word[..3] + word[3..];
    }
    if |word| >= 4 {
      assert word == word[..4] + word[4..];
    }
    if |word| >= 5 {
      assert word == word[..5] + word[5..];
    }
  }

  function Range(offset: nat, num: nat): string {
    Print(offset, 10) + ":" + Print(num, 10)
  }

  lemma RangeNumbers(offset: nat, num: nat)
    ensures var text := Range(offset, num);
            var colon := IndexOf(text, ':', 0);
            colon < |text| && Atoi(text[..colon]) == offset && Atoi(text[colon + 1..]) == num
  {
    var a, b := Print(offset, 10), Print(num, 10);
    var text := Range(offset, num);
    assert text[0..|a|] == a;
    IndexOfItem(text, 0, a, ':');
    assert text[..|a|] == a + "" && text[|a| + 1..] == b + "";
    AtoiOfPrint(offset, "");
    AtoiOfPrint(num, "");
  }

  lemma RangeReply(offset: nat, num: nat, cids: seq<string>)
    ensures BlockReply(Range(offset, num), cids) == "OK:" + BlockText(offset, num, cids)
  {
    RangeNumbers(offset, num);
  }

  /** The server's answer to a request for existing CIDs. */
  lemma BlockAnswer(text: string, offset: nat, num: nat, cids: seq<string>)
    requires text == Range(offset, num) && num > 0 && offset + num <= |cids|
    ensures BlockReply(text, cids) == "OK:" + Spaced(cids[offset..offset + num])
  {
    RangeReply(offset, num, cids);
  }

  lemma BlockPart(a: seq<string>, b: seq<string>, c: seq<string>, num: nat)
    requires |b| == num || (c == [] && |b| < num)
    ensures BlockText(|a|, num, a + b + c) == Spaced(b)
  {
    assert (a + b + c)[|a|..|a| + |b|] == b;
  }

  /** The answer to any request for `num` CIDs from number `|a|` on: these, or as many as there are. */
  lemma BlockMeans(a: seq<string>, b: seq<string>, c: seq<string>, num: nat)
    requires |b| == num || (c == [] && |b| < num)
    ensures BlockReply(Range(|a|, num), a + b + c) == "OK:" + Spaced(b)
  {
    RangeReply(|a|, num, a + b + c);
    BlockPart(a, b, c, num);
  }

  /** Beyond the last there is nothing more to say. */
  lemma BlockBeyond(offset: nat, num: nat, cids: seq<string>)
    requires offset >= |cids|
    ensures BlockReply(Range(offset, num), cids) == "OK:"
  {
    RangeReply(offset, num, cids);
  }

  /** Without a colon there is nothing to answer. */
  lemma BlockRefused(text: string, cids: seq<string>)
    requires ':' !in text
    ensures BlockReply(text, cids) == "FAIL: invalid block command"
  {
  }

  lemma {:induction false} SpacedEnded(cids: seq<string>)
    requires cids != []
    ensures Spaced(cids) == " " + (Ended(cids[..|cids| - 1], ' ') + cids[|cids| - 1])
  {
    if |cids| == 1 {
      assert cids[..0] == [] && cids[1..] == [];
    } else {
      var front, last := cids[..|cids| - 1], cids[|cids| - 1];
      SpacedEnded(cids[1..]);
      assert cids[1..][..|cids| - 2] == front[1..];
      var more := Ended(front[1..], ' ');
      assert " " + cids[0] + (" " + (more + last)) == " " + (cids[0] + " " + more + last);
    }
  }

  /** The client takes the same CIDs out of the reply that the server put into it. */
  lemma ReplyRead(cids: seq<string>)
    requires cids != [] && Free(cids, ' ')
    ensures var reply := "OK:" + Spaced(cids);
            StartsWith(reply, "OK:") && |reply| >= 4 && Separated(reply[4..]) == cids
  {
    SpacedEnded(cids);
    var front, last := cids[..|cids| - 1], cids[|cids| - 1];
    var reply := "OK:" + Spaced(cids);
    assert reply[..3] == "OK:" && reply[4..] == Ended(front, ' ') + last;
    CutEnded(front, last, ' ');
    assert cids == front + [last];
  }

  // ---------------------------------------------------------------- the whole exchange

  lemma {:induction false} FetchedFound(store: map<string, string>, cids: seq<string>, found: seq<string>)
    requires Holding(store, cids, found)
    ensures Fetched(store, cids) == Some(Flatten(found))
    decreases |cids|
  {
    if cids != [] {
      FetchedFound(store, cids[1..], found[1..]);
    }
  }

  /** CIDs have no spaces in them. */
  ghost predicate ProperCids(hash: string -> string) {
    forall s :: ' ' !in hash(s)
  }

  /** One round: what the client is told, and what it gets for it. */
  lemma RoundFetch(chunks: map<string, string>, cids: seq<string>, found: seq<string>, offset: nat, num: nat,
                   reply: string)
    requires num > 0 && offset + num <= |cids| && Free(cids, ' ') && Holding(chunks, cids, found)
    requires reply == "OK:" + Spaced(cids[offset..offset + num])
    ensures StartsWith(reply, "OK:") && |reply| >= 4 && |Separated(reply[4..])| == num
    ensures Fetched(chunks, Separated(reply[4..])) == Some(Flatten(found[offset..offset + num]))
  {
    ReplyRead(cids[offset..offset + num]);
    FetchedFound(chunks, cids[offset..offset + num], found[offset..offset + num]);
  }

  lemma CountRead(n: nat)
    ensures StartsWith("OK: " + Print(n, 10), "OK:") && Atoi(("OK: " + Print(n, 10))[4..]) == n
  {
    var reply := "OK: " + Print(n, 10);
    assert reply[..3] == "OK:" && reply[4..] == Print(n, 10) + "";
    AtoiOfPrint(n, "");
  }

  /** The store has a chunk, the one in `found`, for every CID on the server's list. */
  ghost predicate Serving(server: ChunkServer, found: seq<string>)
    reads server, server.store
  {
    server.Valid() && Free(server.info, ' ') && Holding(server.store.chunks, server.info, found)
  }

  /** One round of the client: ask for some CIDs, fetch the chunks and append them. */
  method CopyBlock(server: ChunkServer, offset: nat, num: nat, f: string, ghost found: seq<string>)
    returns (ok: bool, out: string)
    requires Serving(server, found) && 0 < num <= 10 && offset + num <= |found|
    modifies server, server.store
    ensures Serving(server, found)
    ensures server.info == old(server.info) && server.store.chunks == old(server.store.chunks)
    ensures ok && out == f + Flatten(found[offset..offset + num])
  {
    ghost var text := Range(offset, num);
    BlockAnswer(text, offset, num, server.info);
    BlockCommand(text);
    RangeNumbers(offset, num);
    var reply, open := server.Request("block " + Range(offset, num));
    RoundFetch(server.store.chunks, server.info, found, offset, num, reply);
    ok, out := StartsWith(reply, "OK:"), f;
    if ok {
      ok, out := GetFileData(server.store, reply[4..], f);
    }
  }

  /** The client's loop over the blocks. */
  method CopyBlocks(server: ChunkServer, count: int, ghost found: seq<string>) returns (ok: bool, out: string)
    requires Serving(server, found) && count == |found|
    modifies server, server.store
    ensures server.Valid() && ok && out == Flatten(found)
    ensures server.info == old(server.info) && server.store.chunks == old(server.store.chunks)
  {
    var offset := 0;
    ok, out := true, "";
    while offset < count && ok
      invariant 0 <= offset && Serving(server, found)
      invariant server.info == old(server.info) && server.store.chunks == old(server.store.chunks)
      invariant ok && out == Flatten(found[..Least(offset, count)])
      decreases count - offset
    {
      var num := NUM_CHUNKS;
      if count - offset < num {
        num := count - offset;
      }
      FlattenTo(found, offset, num);
      ok, out := CopyBlock(server, offset, num, out, found);
      offset := offset + NUM_CHUNKS;
    }
    assert found[..count] == found;
  }

  lemma FlattenTo(parts: seq<string>, offset: nat, num: nat)
    requires offset + num <= |parts|
    ensures Flatten(parts[..offset]) + Flatten(parts[offset..offset + num]) == Flatten(parts[..offset + num])
  {
    assert parts[..offset] + parts[offset..offset + num] == parts[..offset + num];
    FlattenAppend(parts[..offset], parts[offset..offset + num]);
  }

  /** The client's `main`, from the file request on. It copies every file there is, and what it
      writes is the file on the server if and only if no two different parts of it share a CID. */
  method CopyFile(server: ChunkServer, fin: string) returns (ok: bool, out: string)
    requires server.Valid() && ProperCids(server.store.hash)
    modifies server, server.store
    ensures ok <==> fin in server.files
    ensures ok ==> (out == server.files[fin] <==> NoCollision(Blocks(server.files[fin], 1024), server.store.hash))
    ensures server.store.chunks == if ok then Without(old(server.store.chunks),
                                                      Cids(Blocks(server.files[fin], 1024), server.store.hash))
                                   else old(server.store.chunks)
  {
    GetCommand(fin);
    var reply, open := server.Request("get " + fin);
    ReplyKind(server.files, fin, reply);
    if !StartsWith(reply, "OK:") {
      return false, "";
    }
    ghost var parts := Blocks(server.files[fin], CHUNKSIZE);
    CountRead(|parts|);
    var count := Atoi(reply[4..]);
    FoundHolds(old(server.store.chunks), parts, server.store.hash);
    ghost var found := Found(old(server.store.chunks), parts, server.store.hash);
    ok, out := CopyBlocks(server, count, found);
    FoundExactly(old(server.store.chunks), server.files[fin], CHUNKSIZE, server.store.hash);
    DoneCommand();
    StoredWithout(old(server.store.chunks), parts, server.store.hash);
    reply, open := server.Request("done");
  }

  /** Removing all parts again leaves nothing of them. */
  lemma {:induction false} StoredWithout(chunks: map<string, string>, parts: seq<string>, hash: string -> string)
    ensures Without(Stored(chunks, parts, hash), Cids(parts, hash)) == Without(chunks, Cids(parts, hash))
  {
    forall cid | cid !in Cids(parts, hash)
      ensures cid in Stored(chunks, parts, hash) <==> cid in chunks
      ensures cid in chunks ==> Stored(chunks, parts, hash)[cid] == chunks[cid]
    {
      StoredOther(chunks, parts, hash, cid);
    }
  }

  lemma {:induction false} StoredOther(chunks: map<string, string>, parts: seq<string>, hash: string -> string,
                                       cid: string)
    requires cid !in Cids(parts, hash)
    ensures cid in Stored(chunks, parts, hash) <==> cid in chunks
    ensures cid in chunks ==> Stored(chunks, parts, hash)[cid] == chunks[cid]
    decreases |parts|
  {
    if parts != [] {
      var n := |parts| - 1;
      assert Cids(parts, hash)[n] == hash(parts[n]);
      assert forall i :: 0 <= i < n ==> Cids(parts[..n], hash)[i] == Cids(parts, hash)[i];
      StoredOther(chunks, parts[..n], hash, cid);
    }
  }

  lemma DoneCommand()
    ensures Parse("done") == Done
  {
    assert "done"[0] == 'd' && "get"[0] == 'g' && "block"[0] == 'b';
  }

  /** A reply to `get` says whether the file is there. */
  lemma ReplyKind(files: map<string, string>, fname: string, reply: string)
    requires reply == if fname in files then "OK: " + Print(|Blocks(files[fname], CHUNKSIZE)|, 10)
                      else "FAIL: File (" + fname + ") not found"
    ensures StartsWith(reply, "OK:") <==> fname in files
  {
    if fname in files {
      CountRead(|Blocks(files[fname], CHUNKSIZE)|);
    } else {
      assert reply[0] == 'F' && "OK:"[0] == 'O';
    }
  }
}
