/** How a multicast file's list of chunk identifiers (CIDs) travels: the source cuts it into
    `chunks|hash|list` messages and one `recvfile|name|hash|hash|...` message, and an endhost
    puts the list together again and pulls the chunks. */
module CidList {
  import opened Basics
  import opened Sequences
  import opened Texts

  /** The length of a CID with the bar after it. */
  const XID_SIZE: nat := 41

  predicate IsCid(c: string) {
    |c| == 40 && '|' !in c
  }

  predicate AllCids(cids: seq<string>) {
    forall k :: 0 <= k < |cids| ==> IsCid(cids[k])
  }

  // ---------------------------------------------------------------- the source

  function ListMessage(list: string, hash: string -> string): string {
    "chunks|" + (hash(list) + "|" + list)
  }

  function ListMessages(lists: seq<string>, hash: string -> string): seq<string> {
    seq(|lists|, i requires 0 <= i < |lists| => ListMessage(lists[i], hash))
  }

  function Hashes(lists: seq<string>, hash: string -> string): seq<string> {
    seq(|lists|, i requires 0 <= i < |lists| => hash(lists[i]))
  }

  function FileMessage(fin: string, lists: seq<string>, hash: string -> string): string {
    "recvfile|" + (fin + "|" + Ended(Hashes(lists, hash), '|'))
  }

  function Announcement(fin: string, lists: seq<string>, hash: string -> string): seq<string> {
    ListMessages(lists, hash) + [FileMessage(fin, lists, hash)]
  }

  /** The part of `MulticastFile` that announces the CID list `res`. */
  method MulticastFile(fin: string, res: string, numXids: nat, hash: string -> string) returns (sent: seq<string>)
    requires numXids >= 1
    ensures sent == Announcement(fin, Blocks(res, 41 * numXids), hash)
  {
    var width := XID_SIZE * numXids;
    var read := 0;
    var masterchunk := "";
    ghost var done: seq<string> := [];
    ghost var goal := Blocks(res, width);
    sent := [];
    while read < |res|
      invariant sent == ListMessages(done, hash)
      invariant masterchunk == Ended(Hashes(done, hash), '|')
      invariant done + Blocks(Remaining(res, read), width) == goal
    {
      var s := Substr(res, read, width);
      BlocksStep(done, res, read, width);
      HashesStep(done, s, hash);
      done := done + [s];
      read := read + width;
      sent := sent + [ListMessage(s, hash)];
      masterchunk := masterchunk + hash(s) + "|";
    }
    assert done == goal;
    sent := sent + [FileMessageOf(fin, masterchunk)];
  }

  function FileMessageOf(fin: string, masterchunk: string): string {
    "recvfile|" + (fin + "|" + masterchunk)
  }

  lemma HashesStep(done: seq<string>, s: string, hash: string -> string)
    ensures ListMessages(done + [s], hash) == ListMessages(done, hash) + [ListMessage(s, hash)]
    ensures Ended(Hashes(done + [s], hash), '|') == Ended(Hashes(done, hash), '|') + hash(s) + "|"
  {
    assert Hashes(done + [s], hash) == Hashes(done, hash) + [hash(s)];
    EndedAppend(Hashes(done, hash), [hash(s)], '|');
    EndedOne(hash(s), '|');
  }

  // ---------------------------------------------------------------- the endhost

  /** An endhost: the lists it has been sent, the CIDs it has pulled from the source and those it has
      pulled from its RP, in order, and the files it has written, each as the CIDs whose chunks are
      in it. */
  datatype Host = Host(lists: map<string, string>, pulled: seq<string>, fromRp: seq<string>,
                       files: map<string, seq<string>>)

  /** What stands in front of the first bar. */
  function Head(s: string): string {
    s[..IndexOf(s, '|', 0)]
  }

  /** What stands behind the first bar; the whole text if there is none. */
  function Tail(s: string): string {
    var end := IndexOf(s, '|', 0);
    if end == |s| then s else s[end + 1..]
  }

  /** `std::map::insert`: an entry that is there already stays. */
  function Inserted(lists: map<string, string>, key: string, list: string): map<string, string> {
    if key in lists then lists else lists[key := list]
  }

  /** The CIDs in the lists with these hashes; `None` when a hash is not known. */
  function Listed(lists: map<string, string>, keys: seq<string>): Option<seq<string>> {
    if keys == [] then Some([])
    else if keys[0] !in lists then None
    else match Listed(lists, keys[1..])
      case None => None
      case Some(more) => Some(Cut(lists[keys[0]], '|').items + more)
  }

  /** The state after a control message; `None` when it names a list the host does not have. */
  function After(h: Host, buf: string, postname: string): Option<Host> {
    if StartsWith(buf, "recvfile|") then
      var fs := buf[9..];
      match Listed(h.lists, Cut(Tail(fs), '|').items)
      case None => None
      case Some(cids) =>
        Some(h.(pulled := h.pulled + cids, files := h.files["F" + postname + "-" + Head(fs) := cids]))
    else if StartsWith(buf, "chunks|") then
      var clean := buf[7..];
      Some(h.(lists := Inserted(h.lists, Head(clean), Tail(clean))))
    else if StartsWith(buf, "pullchunks|") then
      Some(h.(pulled := h.pulled + Cut(buf[11..], '|').items))
    else if StartsWith(buf, "pullchunksrp|") then
      Some(h.(fromRp := h.fromRp + Cut(buf[13..], '|').items))
    else
      Some(h)
  }

  function Count(s: string, c: char, i: nat): nat
    requires i <= |s|
    decreases |s| - i
  {
    if i == |s| then 0 else (if s[i] == c then 1 else 0) + Count(s, c, i + 1)
  }

  lemma {:induction false} CountSkip(s: string, c: char, i: nat)
    requires i <= |s|
    ensures Count(s, c, i) == Count(s, c, IndexOf(s, c, i))
    decreases |s| - i
  {
    if i < |s| && s[i] != c {
      CountSkip(s, c, i + 1);
    }
  }

  /** There are as many pieces as bars. */
  lemma {:induction false} CountPieces(s: string, c: char, i: nat)
    requires i <= |s|
    ensures |CutFrom(s, c, i).items| == Count(s, c, i)
    decreases |s| - i
  {
    CountSkip(s, c, i);
    var end := IndexOf(s, c, i);
    if end < |s| {
      CountPieces(s, c, end + 1);
    }
  }

  class MulticastEndhost {
    var chunksLists: map<string, string>
    var pulled: seq<string>
    var fromRp: seq<string>
    var files: map<string, seq<string>>
    const postname: string

    function State(): Host
      reads this
    {
      Host(chunksLists, pulled, fromRp, files)
    }

    /** `BuildChunkDAGs` fills an array with one place for each bar. */
    method BuildChunkDAGs(cs: array<string>, chunks: string) returns (n: nat)
      requires cs.Length == Count(chunks, '|', 0)
      modifies cs
      ensures n == cs.Length && cs[..] == Cut(chunks, '|').items
    {
      CountPieces(chunks, '|', 0);
      ghost var goal := Cut(chunks, '|').items;
      var prev := 0;
      var location := IndexOf(chunks, '|', 0);
      n := 0;
      while location < |chunks|
        invariant prev <= |chunks| && location == IndexOf(chunks, '|', prev)
        invariant 0 <= n <= cs.Length == |goal|
        invariant CutFrom(chunks, '|', prev).items == goal[n..]
        invariant forall k :: 0 <= k < n ==> cs[k] == goal[k]
        decreases |chunks| - prev
      {
        CutStep(goal, n, chunks, '|', prev);
        cs[n] := chunks[prev..location];
        n := n + 1;
        prev := location + 1;
        location := IndexOf(chunks, '|', prev);
      }
    }

    /** `PullChunksOneByOne`, from the source or from the RP; its check that the two counts agree
        never fails. */
    method PullChunksOneByOne(chunks: string, rp: bool) returns (result: seq<string>)
      modifies this`pulled, this`fromRp
      ensures result == Cut(chunks, '|').items
      ensures pulled == if rp then old(pulled) else old(pulled) + result
      ensures fromRp == if rp then old(fromRp) + result else old(fromRp)
    {
      var numChunks := Count(chunks, '|', 0);
      var cs := new string[numChunks];
      var n := BuildChunkDAGs(cs, chunks);
      ghost var all := cs[..];
      result := [];
      var j := 0;
      while j < n
        invariant cs[..] == all
        invariant 0 <= j <= n && result == cs[..j]
        invariant pulled == if rp then old(pulled) else old(pulled) + cs[..j]
        invariant fromRp == if rp then old(fromRp) + cs[..j] else old(fromRp)
      {
        if rp {
          fromRp := fromRp + [cs[j]];
        } else {
          pulled := pulled + [cs[j]];
        }
        result := result + [cs[j]];
        assert cs[..j + 1] == cs[..j] + [cs[j]];
        j := j + 1;
      }
      assert cs[..n] == cs[..];
    }

    /** The loop over the hashes of a `recvfile` message. */
    method PullLists(hashes: string) returns (content: seq<string>)
      requires Listed(chunksLists, Cut(hashes, '|').items).Some?
      modifies this`pulled, this`fromRp
      ensures fromRp == old(fromRp)
      ensures Some(content) == Listed(chunksLists, Cut(hashes, '|').items)
      ensures pulled == old(pulled) + content
    {
      var prev := 0;
      ghost var goal := Listed(chunksLists, Cut(hashes, '|').items).value;
      content := [];
      while IndexOf(hashes, '|', prev) < |hashes|
        invariant prev <= |hashes|
        invariant pulled == old(pulled) + content && fromRp == old(fromRp)
        invariant Continues(content, Listed(chunksLists, CutFrom(hashes, '|', prev).items), goal)
        decreases |hashes| - prev
      {
        var result;
        result, prev := PullNext(hashes, prev, content, goal);
        content := content + result;
      }
      assert content + [] == content;
    }

    /** One turn of the loop: the list with the next hash is pulled. */
    method PullNext(hashes: string, prev: nat, ghost content: seq<string>, ghost goal: seq<string>)
      returns (result: seq<string>, next: nat)
      requires prev <= |hashes| && IndexOf(hashes, '|', prev) < |hashes|
      requires Continues(content, Listed(chunksLists, CutFrom(hashes, '|', prev).items), goal)
      modifies this`pulled, this`fromRp
      ensures prev < next <= |hashes| && fromRp == old(fromRp) && pulled == old(pulled) + result
      ensures Continues(content + result, Listed(chunksLists, CutFrom(hashes, '|', next).items), goal)
    {
      ListedStep(chunksLists, hashes, prev, content, goal);
      var location := IndexOf(hashes, '|', prev);
      result := PullChunksOneByOne(chunksLists[hashes[prev..location]], false);
      next := location + 1;
    }

    /** The control loop's treatment of one message. */
    method Receive(buf: string)
      requires After(State(), buf, postname).Some?
      modifies this
      ensures Some(State()) == After(old(State()), buf, postname)
    {
      if StartsWith(buf, "recvfile|") {
        var fs := buf[9..];
        var fname := "F" + postname + "-" + Head(fs);
        var content := PullLists(Tail(fs));
        files := files[fname := content];
      } else if StartsWith(buf, "chunks|") {
        var clean := buf[7..];
        chunksLists := Inserted(chunksLists, Head(clean), Tail(clean));
      } else if StartsWith(buf, "pullchunks|") {
        var result := PullChunksOneByOne(buf[11..], false);
      } else if StartsWith(buf, "pullchunksrp|") {
        var result := PullChunksOneByOne(buf[13..], true);
      }
    }
  }

  ghost predicate Continues(done: seq<string>, more: Option<seq<string>>, goal: seq<string>) {
    more.Some? && done + more.value == goal
  }

  lemma ListedStep(lists: map<string, string>, hashes: string, prev: nat, done: seq<string>, goal: seq<string>)
    requires prev <= |hashes| && IndexOf(hashes, '|', prev) < |hashes|
    requires Continues(done, Listed(lists, CutFrom(hashes, '|', prev).items), goal)
    ensures var end := IndexOf(hashes, '|', prev);
            && hashes[prev..end] in lists
            && Continues(done + Cut(lists[hashes[prev..end]], '|').items,
                         Listed(lists, CutFrom(hashes, '|', end + 1).items), goal)
  {
    var end := IndexOf(hashes, '|', prev);
    var items := CutFrom(hashes, '|', prev).items;
    assert items[1..] == CutFrom(hashes, '|', end + 1).items;
    var first, more := Cut(lists[items[0]], '|').items, Listed(lists, items[1..]).value;
    assert done + (first + more) == done + first + more;
  }

  // ---------------------------------------------------------------- from the source to the endhost

  /** The state after a run of messages. */
  function Run(h: Host, messages: seq<string>, postname: string): Option<Host>
    decreases |messages|
  {
    if messages == [] then Some(h)
    else match After(h, messages[0], postname)
      case None => None
      case Some(next) => Run(next, messages[1..], postname)
  }

  lemma {:induction false} CidsInBlocks(cids: seq<string>, n: nat)
    requires n > 0 && AllCids(cids)
    ensures forall k :: 0 <= k < |Blocks(cids, n)| ==> AllCids(Blocks(cids, n)[k])
    decreases |cids|
  {
    if |cids| > n {
      CidsInBlocks(cids[n..], n);
    }
  }

  function Listings(groups: seq<seq<string>>): seq<string> {
    seq(|groups|, i requires 0 <= i < |groups| => Ended(groups[i], '|'))
  }

  lemma {:induction false} EndedLength(cids: seq<string>)
    requires AllCids(cids)
    ensures |Ended(cids, '|')| == XID_SIZE * |cids|
  {
    if cids != [] {
      assert IsCid(cids[0]);
      assert AllCids(cids[1..]);
      EndedLength(cids[1..]);
    }
  }

  /** The source's cuts fall between CIDs. */
  lemma {:induction false} BlocksOfCids(cids: seq<string>, n: nat)
    requires n > 0 && AllCids(cids)
    ensures Blocks(Ended(cids, '|'), 41 * n) == Listings(Blocks(cids, n))
    decreases |cids|
  {
    EndedLength(cids);
    if |cids| > n {
      var a, b := cids[..n], cids[n..];
      assert cids == a + b;
      EndedAppend(a, b, '|');
      EndedLength(a);
      var all := Ended(cids, '|');
      assert all[..XID_SIZE * n] == Ended(a, '|') && all[XID_SIZE * n..] == Ended(b, '|');
      BlocksOfCids(b, n);
      assert Listings(Blocks(cids, n)) == [Ended(a, '|')] + Listings(Blocks(b, n));
    }
  }

  function InsertedAll(lists: map<string, string>, texts: seq<string>, hash: string -> string): map<string, string>
    decreases |texts|
  {
    if texts == [] then lists
    else InsertedAll(Inserted(lists, hash(texts[0]), texts[0]), texts[1..], hash)
  }

  lemma {:induction false} InsertedKeeps(lists: map<string, string>, texts: seq<string>, hash: string -> string,
                                         key: string)
    requires key in lists
    ensures key in InsertedAll(lists, texts, hash) && InsertedAll(lists, texts, hash)[key] == lists[key]
    decreases |texts|
  {
    if texts != [] {
      InsertedKeeps(Inserted(lists, hash(texts[0]), texts[0]), texts[1..], hash, key);
    }
  }

  /** Under the hash of a list stands what was there before, or else the first list sent with
      that hash. */
  lemma {:induction false} InsertedFirst(lists: map<string, string>, texts: seq<string>, hash: string -> string, i: nat)
    returns (k: nat)
    requires i < |texts|
    ensures k <= i && hash(texts[k]) == hash(texts[i])
    ensures hash(texts[i]) in InsertedAll(lists, texts, hash)
    ensures InsertedAll(lists, texts, hash)[hash(texts[i])] ==
            if hash(texts[i]) in lists then lists[hash(texts[i])] else texts[k]
    decreases |texts|
  {
    var key := hash(texts[i]);
    var next := Inserted(lists, hash(texts[0]), texts[0]);
    if key in next {
      InsertedKeeps(next, texts[1..], hash, key);
      k := if key in lists then i else 0;
    } else {
      k := InsertedFirst(next, texts[1..], hash, i - 1);
      k := k + 1;
    }
  }

  ghost predicate NoBars(hash: string -> string) {
    forall s :: '|' !in hash(s)
  }

  /** A text that starts with a field and a bar is taken apart at that bar. */
  lemma FieldAndRest(field: string, rest: string)
    requires '|' !in field
    ensures Head(field + "|" + rest) == field && Tail(field + "|" + rest) == rest
  {
    var s := field + "|" + rest;
    assert s[0..|field|] == field;
    IndexOfItem(s, 0, field, '|');
  }

  /** A text without a bar is both. */
  lemma NoBar(s: string)
    requires '|' !in s
    ensures Head(s) == s && Tail(s) == s
  {
  }

  lemma AfterList(h: Host, list: string, hash: string -> string, postname: string)
    requires NoBars(hash)
    ensures After(h, ListMessage(list, hash), postname) == Some(h.(lists := Inserted(h.lists, hash(list), list)))
  {
    ListMessageParts(hash(list) + "|" + list);
    FieldAndRest(hash(list), list);
  }

  lemma ListMessageParts(clean: string)
    ensures !StartsWith("chunks|" + clean, "recvfile|")
    ensures StartsWith("chunks|" + clean, "chunks|") && ("chunks|" + clean)[7..] == clean
  {
    var buf := "chunks|" + clean;
    assert buf[0] == 'c' && "recvfile|"[0] == 'r';
  }

  lemma {:induction false} RunLists(h: Host, texts: seq<string>, hash: string -> string, last: string, postname: string)
    requires NoBars(hash)
    ensures Run(h, ListMessages(texts, hash) + [last], postname)
            == After(h.(lists := InsertedAll(h.lists, texts, hash)), last, postname)
    decreases |texts|
  {
    var messages := ListMessages(texts, hash) + [last];
    if texts == [] {
      assert messages == [last] && messages[1..] == [];
    } else {
      AfterList(h, texts[0], hash, postname);
      assert messages[1..] == ListMessages(texts[1..], hash) + [last];
      RunLists(h.(lists := Inserted(h.lists, hash(texts[0]), texts[0])), texts[1..], hash, last, postname);
    }
  }

  function Listing(lists: map<string, string>, key: string): seq<string> {
    if key in lists then Cut(lists[key], '|').items else []
  }

  function Found(lists: map<string, string>, keys: seq<string>): seq<seq<string>> {
    seq(|keys|, i requires 0 <= i < |keys| => Listing(lists, keys[i]))
  }

  lemma {:induction false} ListedAll(lists: map<string, string>, keys: seq<string>)
    requires forall i :: 0 <= i < |keys| ==> keys[i] in lists
    ensures Listed(lists, keys) == Some(Flatten(Found(lists, keys)))
    decreases |keys|
  {
    if keys != [] {
      ListedAll(lists, keys[1..]);
      assert Found(lists, keys)[1..] == Found(lists, keys[1..]);
    }
  }

  lemma AfterFile(h: Host, fin: string, lists: seq<string>, hash: string -> string, postname: string)
    requires NoBars(hash) && '|' !in fin
    requires forall i :: 0 <= i < |lists| ==> hash(lists[i]) in h.lists
    ensures var cids := Flatten(Found(h.lists, Hashes(lists, hash)));
            After(h, FileMessage(fin, lists, hash), postname)
            == Some(h.(pulled := h.pulled + cids, files := h.files["F" + postname + "-" + fin := cids]))
  {
    var buf, keys := FileMessage(fin, lists, hash), Hashes(lists, hash);
    assert buf[..9] == "recvfile|" && buf[9..] == fin + "|" + Ended(keys, '|');
    FieldAndRest(fin, Ended(keys, '|'));
    assert Ended(keys, '|') + "" == Ended(keys, '|');
    CutEnded(keys, "", '|');
    ListedAll(h.lists, keys);
  }

  lemma CutCids(cids: seq<string>)
    requires AllCids(cids)
    ensures Cut(Ended(cids, '|'), '|').items == cids
  {
    assert forall k :: 0 <= k < |cids| ==> IsCid(cids[k]);
    assert Ended(cids, '|') + "" == Ended(cids, '|');
    CutEnded(cids, "", '|');
  }

  /** `PullChunks` of the source: what stands behind the command is pulled, in order. */
  lemma PullMessage(h: Host, cids: seq<string>, postname: string)
    requires AllCids(cids)
    ensures After(h, "pullchunks|" + Ended(cids, '|'), postname) == Some(h.(pulled := h.pulled + cids))
  {
    var list := Ended(cids, '|');
    var buf := "pullchunks|" + list;
    assert buf[0] == 'p' && "recvfile|"[0] == 'r' && "chunks|"[0] == 'c';
    assert buf[..11] == "pullchunks|" && buf[11..] == list;
    CutCids(cids);
  }

  /** `PullChunksRP`: the same, from the RP. */
  lemma PullRpMessage(h: Host, cids: seq<string>, postname: string)
    requires AllCids(cids)
    ensures After(h, "pullchunksrp|" + Ended(cids, '|'), postname) == Some(h.(fromRp := h.fromRp + cids))
  {
    var list := Ended(cids, '|');
    var buf := "pullchunksrp|" + list;
    assert buf[0] == 'p' && "recvfile|"[0] == 'r' && "chunks|"[0] == 'c';
    assert buf[10] == 'r' && "pullchunks|"[10] == '|';
    assert buf[..13] == "pullchunksrp|" && buf[13..] == list;
    CutCids(cids);
  }

  lemma StartsAs(buf: string, word: string)
    ensures StartsWith(buf, word) ==> buf == word + buf[|word|..]
  {
  }

  /** Any other message changes none of this. */
  lemma OtherMessage(h: Host, buf: string, postname: string)
    requires forall rest :: buf != "recvfile|" + rest && buf != "chunks|" + rest
    requires forall rest :: buf != "pullchunks|" + rest && buf != "pullchunksrp|" + rest
    ensures After(h, buf, postname) == Some(h)
  {
    StartsAs(buf, "recvfile|");
    StartsAs(buf, "chunks|");
    StartsAs(buf, "pullchunks|");
    StartsAs(buf, "pullchunksrp|");
  }

  /** The announcement of a CID list as an endhost takes it in: it always pulls lists it has been
      sent, one for each group, and writes them to the file. */
  lemma Announced(h: Host, fin: string, cids: seq<string>, n: nat, hash: string -> string, postname: string)
    requires n > 0 && AllCids(cids) && NoBars(hash) && '|' !in fin
    ensures var texts := Listings(Blocks(cids, n));
            var lists := InsertedAll(h.lists, texts, hash);
            var content := Flatten(Found(lists, Hashes(texts, hash)));
            Run(h, Announcement(fin, Blocks(Ended(cids, '|'), 41 * n), hash), postname)
            == Some(Host(lists, h.pulled + content, h.fromRp, h.files["F" + postname + "-" + fin := content]))
  {
    BlocksOfCids(cids, n);
    var texts := Listings(Blocks(cids, n));
    var lists := InsertedAll(h.lists, texts, hash);
    RunLists(h, texts, hash, FileMessage(fin, texts, hash), postname);
    forall i | 0 <= i < |texts| ensures hash(texts[i]) in lists {
      var k := InsertedFirst(h.lists, texts, hash, i);
    }
    AfterFile(h.(lists := lists), fin, texts, hash, postname);
  }

  /** No list shares its hash with a different list of the same file or one the host has. */
  ghost predicate NoClash(lists: map<string, string>, texts: seq<string>, hash: string -> string) {
    && (forall i :: 0 <= i < |texts| && hash(texts[i]) in lists ==> lists[hash(texts[i])] == texts[i])
    && NoCollision(texts, hash)
  }

  lemma ListingOf(lists: map<string, string>, groups: seq<seq<string>>, hash: string -> string, i: nat)
    requires i < |groups| && AllCids(groups[i])
    requires hash(Listings(groups)[i]) in lists && lists[hash(Listings(groups)[i])] == Listings(groups)[i]
    ensures Listing(lists, hash(Listings(groups)[i])) == groups[i]
  {
    assert forall k :: 0 <= k < |groups[i]| ==> IsCid(groups[i][k]);
    assert Listings(groups)[i] == Ended(groups[i], '|') + "";
    CutEnded(groups[i], "", '|');
  }

  lemma FoundGroups(lists: map<string, string>, groups: seq<seq<string>>, hash: string -> string)
    requires forall i :: 0 <= i < |groups| ==> AllCids(groups[i])
    requires NoClash(lists, Listings(groups), hash)
    ensures var texts := Listings(groups);
            Found(InsertedAll(lists, texts, hash), Hashes(texts, hash)) == groups
  {
    var texts := Listings(groups);
    var all := InsertedAll(lists, texts, hash);
    forall i | 0 <= i < |groups| ensures Listing(all, hash(texts[i])) == groups[i] {
      var k := InsertedFirst(lists, texts, hash, i);
      ListingOf(all, groups, hash, i);
    }
  }

  /** Without a hash clash the endhost pulls exactly the CIDs that were sent, in order, and
      writes them to the file, whatever it has been sent before. */
  lemma Delivered(h: Host, fin: string, cids: seq<string>, n: nat, hash: string -> string, postname: string)
    requires n > 0 && AllCids(cids) && NoBars(hash) && '|' !in fin
    requires NoClash(h.lists, Listings(Blocks(cids, n)), hash)
    ensures var end := Run(h, Announcement(fin, Blocks(Ended(cids, '|'), 41 * n), hash), postname);
            && end.Some? && end.value.pulled == h.pulled + cids
            && end.value.files == h.files["F" + postname + "-" + fin := cids]
  {
    Announced(h, fin, cids, n, hash, postname);
    CidsInBlocks(cids, n);
    FoundGroups(h.lists, Blocks(cids, n), hash);
    FlattenBlocks(cids, n);
  }

  /** On a host that has no lists yet, what stands under a group's hash is a group no later
      than it. */
  lemma FoundEarlier(groups: seq<seq<string>>, hash: string -> string, i: nat) returns (k: nat)
    requires i < |groups| && forall i :: 0 <= i < |groups| ==> AllCids(groups[i])
    ensures k <= i && hash(Listings(groups)[k]) == hash(Listings(groups)[i])
    ensures Listing(InsertedAll(map[], Listings(groups), hash), hash(Listings(groups)[i])) == groups[k]
  {
    var texts := Listings(groups);
    k := InsertedFirst(map[], texts, hash, i);
    ListingOf(InsertedAll(map[], texts, hash), groups, hash, k);
  }

  /** A host with no lists pulls exactly what was sent if and only if no two different groups
      have the same hash. */
  lemma DeliveredExactly(h: Host, fin: string, cids: seq<string>, n: nat, hash: string -> string, postname: string)
    requires n > 0 && AllCids(cids) && NoBars(hash) && '|' !in fin
    requires h.lists == map[]
    ensures var end := Run(h, Announcement(fin, Blocks(Ended(cids, '|'), 41 * n), hash), postname);
            var texts := Listings(Blocks(cids, n));
            && end.Some?
            && (end.value.pulled == h.pulled + cids <==>
                NoCollision(texts, hash))
  {
    var groups := Blocks(cids, n);
    CidsInBlocks(cids, n);
    var texts := Listings(groups);
    var found := Found(InsertedAll(map[], texts, hash), Hashes(texts, hash));
    Announced(h, fin, cids, n, hash, postname);
    FlattenBlocks(cids, n);
    if NoClash(map[], texts, hash) {
      FoundGroups(map[], groups, hash);
    }
    if Flatten(found) == cids {
      forall i | 0 <= i < |groups| - 1 ensures |found[i]| == |groups[i]| {
        var k := FoundEarlier(groups, hash, i);
      }
      SameParts(found, groups);
      forall i, j | 0 <= i < |texts| && 0 <= j < |texts| && hash(texts[i]) == hash(texts[j])
        ensures texts[i] == texts[j]
      {
        assert found[i] == found[j];
      }
    }
    assert h.pulled + Flatten(found) == h.pulled + cids <==> Flatten(found) == cids by {
      AppendSame(h.pulled, Flatten(found), cids);
    }
  }
}
