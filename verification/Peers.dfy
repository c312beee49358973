/** The list of peers a node hibernator works with: validation, reloading, who
    is called, and the verdict on what the calls return. */
module Peers {
  import opened Basics
  import opened Core
  import opened ShutdownGuard
  import opened Gather

  /** tls is None without a TLS configuration, else whether that is valid.
      urlParses stands for the URL parser's answer. */
  datatype Peer = Peer(name: string, privManKey: string, rpcUrl: string, urlParses: bool, tls: Option<bool>) {
    function Fault(): (fault: Option<PeerFault>)
      ensures fault.None? <==> name != "" && rpcUrl != "" && urlParses && tls != Some(false)
      ensures fault == Some(NameEmpty) <==> name == ""
      ensures fault == Some(UrlEmpty) ==> rpcUrl == ""
      ensures fault == Some(UrlUnparsable) ==> rpcUrl != "" && !urlParses
      ensures fault == Some(TlsInvalid) <==> name != "" && rpcUrl != "" && urlParses && tls == Some(false)
    {
      if name == "" then Some(NameEmpty)
      else if rpcUrl == "" then Some(UrlEmpty)
      else if !urlParses then Some(UrlUnparsable)
      else if tls == Some(false) then Some(TlsInvalid)
      else None
    }
  }

  datatype PeerFault = NameEmpty | UrlEmpty | UrlUnparsable | TlsInvalid

  datatype ListError = NotUnique(i: nat) | Invalid(i: nat, fault: PeerFault)

  /** Entry i has the name of an earlier one. */
  ghost predicate Repeats(peers: seq<Peer>, i: nat)
    requires i < |peers|
  {
    exists j :: 0 <= j < i && peers[j].name == peers[i].name
  }

  ghost predicate ListValid(peers: seq<Peer>) {
    && (forall i :: 0 <= i < |peers| ==> peers[i].Fault() == None)
    && Distinct(NamesOf(peers))
  }

  function NamesOf(peers: seq<Peer>): (names: seq<string>)
    ensures |names| == |peers| && forall i :: 0 <= i < |peers| ==> names[i] == peers[i].name
  {
    seq(|peers|, i requires 0 <= i < |peers| => peers[i].name)
  }

  ghost predicate FailsAt(peers: seq<Peer>, i: nat)
    requires i < |peers|
  {
    Repeats(peers, i) || peers[i].Fault().Some?
  }

  /** Accepts exactly the valid lists; otherwise it reports the least failing
      entry, and a repeated name before any other fault of that entry. */
  method IsValid(peers: seq<Peer>) returns (err: Option<ListError>)
    ensures err == None <==> ListValid(peers)
    ensures err == None <==>
            && (forall i :: 0 <= i < |peers| ==> var p := peers[i];
                  p.name != "" && p.rpcUrl != "" && p.urlParses && p.tls != Some(false))
            && (forall i, j :: 0 <= i < j < |peers| ==> peers[i].name != peers[j].name)
    ensures err.Some? && err.value.NotUnique? ==>
              err.value.i < |peers| && exists j :: 0 <= j < err.value.i && peers[j].name == peers[err.value.i].name
    ensures err.Some? ==>
              && err.value.i < |peers|
              && FailsAt(peers, err.value.i)
              && (forall j :: 0 <= j < err.value.i ==> !FailsAt(peers, j))
              && (err.value.NotUnique? <==> Repeats(peers, err.value.i))
              && (err.value.Invalid? ==> peers[err.value.i].Fault() == Some(err.value.fault))
  {
    ValidMeans(peers);
    var nameList: set<string> := {};
    for i := 0 to |peers|
      invariant forall n :: n in nameList <==> exists j :: 0 <= j < i && peers[j].name == n
      invariant forall j :: 0 <= j < i ==> !FailsAt(peers, j)
    {
      if peers[i].name in nameList {
        assert FailsAt(peers, i);
        NoFaultMeansValid(peers);
        return Some(NotUnique(i));
      }
      var fault := peers[i].Fault();
      if fault.Some? {
        assert FailsAt(peers, i);
        NoFaultMeansValid(peers);
        return Some(Invalid(i, fault.value));
      }
      nameList := nameList + {peers[i].name};
    }
    NoFaultMeansValid(peers);
    return None;
  }

  lemma ValidMeans(peers: seq<Peer>)
    ensures ListValid(peers) <==>
            && (forall i :: 0 <= i < |peers| ==> var p := peers[i];
                  p.name != "" && p.rpcUrl != "" && p.urlParses && p.tls != Some(false))
            && (forall i, j :: 0 <= i < j < |peers| ==> peers[i].name != peers[j].name)
  {
    var names := NamesOf(peers);
    assert forall i, j :: 0 <= i < j < |peers| ==> (names[i] != names[j] <==> peers[i].name != peers[j].name);
  }

  lemma NoFaultMeansValid(peers: seq<Peer>)
    ensures ListValid(peers) <==> forall i :: 0 <= i < |peers| ==> !FailsAt(peers, i)
  {
    if forall i :: 0 <= i < |peers| ==> !FailsAt(peers, i) {
      var names := NamesOf(peers);
      forall i, j | 0 <= i < j < |peers| ensures names[i] != names[j] {
        assert !FailsAt(peers, j) && !Repeats(peers, j);
      }
      forall i | 0 <= i < |peers| ensures peers[i].Fault() == None {
        assert !FailsAt(peers, i);
      }
    } else {
      var i :| 0 <= i < |peers| && FailsAt(peers, i);
    }
  }

  // ---- Calling the peers ---------------------------------------------------

  /** The entries that are called: all but the hibernator's own. */
  function Others(self: string, peers: seq<Peer>): (others: seq<Peer>) {
    if peers == [] then [] else
      Others(self, peers[..|peers| - 1]) +
      var last := peers[|peers| - 1];
      if last.name != "" && last.name == self then [] else [last]
  }

  ghost predicate Lists(peers: seq<Peer>, name: string) {
    exists i :: 0 <= i < |peers| && peers[i].name == name
  }

  lemma {:induction false} NoneIsSkipped(self: string, peers: seq<Peer>)
    requires self == "" || !Lists(peers, self)
    ensures Others(self, peers) == peers
    decreases |peers|
  {
    if peers != [] {
      var n := |peers| - 1;
      assert Lists(peers[..n], self) ==> Lists(peers, self);
      NoneIsSkipped(self, peers[..n]);
      assert peers == peers[..n] + [peers[n]];
    }
  }

  /** In a list of distinct names at most one entry, the own one, is skipped. */
  lemma {:induction false} OnlySelfIsSkipped(self: string, peers: seq<Peer>)
    requires Distinct(NamesOf(peers))
    ensures |Others(self, peers)| == |peers| - if self != "" && Lists(peers, self) then 1 else 0
    decreases |peers|
  {
    if self == "" || !Lists(peers, self) {
      NoneIsSkipped(self, peers);
    } else {
      var n := |peers| - 1;
      var front := peers[..n];
      if peers[n].name == self {
        assert !Lists(front, self);
        NoneIsSkipped(self, front);
      } else {
        assert Lists(front, self) by {
          var i :| 0 <= i < |peers| && peers[i].name == self;
          assert front[i].name == self;
        }
        OnlySelfIsSkipped(self, front);
      }
    }
  }

  /** Everybody else is called, and not the hibernator itself. */
  lemma {:induction false} OthersAreCalled(self: string, peers: seq<Peer>)
    ensures forall p :: p in Others(self, peers) <==> p in peers && (p.name == "" || p.name != self)
    decreases |peers|
  {
    if peers != [] {
      var n := |peers| - 1;
      OthersAreCalled(self, peers[..n]);
      assert peers == peers[..n] + [peers[n]];
    }
  }

  /** As often as in the list, and in its order. */
  lemma {:induction false} OthersKeepTheRest(self: string, peers: seq<Peer>, more: seq<Peer>, p: Peer)
    ensures Others(self, peers + more) == Others(self, peers) + Others(self, more)
    ensures multiset(Others(self, peers))[p] == if p.name != "" && p.name == self then 0 else multiset(peers)[p]
    decreases |peers| + |more|
  {
    if more == [] {
      assert peers + more == peers;
      if peers != [] {
        var n := |peers| - 1;
        OthersKeepTheRest(self, peers[..n], [], p);
        assert peers == peers[..n] + [peers[n]];
      }
    } else {
      var n := |more| - 1;
      OthersKeepTheRest(self, peers, more[..n], p);
      assert (peers + more)[..|peers + more| - 1] == peers + more[..n];
    }
  }

  /** The first entry with this privacy manager key. */
  ghost predicate IsFirstWithKey(peers: seq<Peer>, key: string, found: Option<Peer>) {
    match found
    case None => forall i :: 0 <= i < |peers| ==> peers[i].privManKey != key
    case Some(p) => exists i :: 0 <= i < |peers| && peers[i] == p && p.privManKey == key
                                && forall j :: 0 <= j < i ==> peers[j].privManKey != key
  }

  ghost predicate Manages(peers: seq<Peer>, key: string) {
    exists p :: p in peers && p.privManKey == key
  }

  /** The list in use after one read of the peers file: the new one if it could
      be read and is valid, else the old one. */
  ghost function Reload(peers: seq<Peer>, file: Result<seq<Peer>>): seq<Peer> {
    if file.Ok? && ListValid(file.value) then file.value else peers
  }

  /** How many keys are managed by a peer when the file is read once per key. */
  ghost function ManagedCount(peers: seq<Peer>, keys: seq<string>, files: seq<Result<seq<Peer>>>): nat
    requires |files| == |keys|
    decreases |keys|
  {
    if keys == [] then 0 else
      var now := Reload(peers, files[0]);
      (if Manages(now, keys[0]) then 1 else 0) + ManagedCount(now, keys[1..], files[1..])
  }

  /** The list in use after all these reads. */
  ghost function LastReload(peers: seq<Peer>, files: seq<Result<seq<Peer>>>): seq<Peer>
    decreases |files|
  {
    if files == [] then peers else LastReload(Reload(peers, files[0]), files[1..])
  }

  ghost function FirstWithKey(peers: seq<Peer>, key: string): (found: Option<Peer>)
    ensures IsFirstWithKey(peers, key, found) && (found.Some? <==> Manages(peers, key))
  {
    if peers == [] then None
    else if peers[0].privManKey == key then
      assert peers[0] in peers;
      Some(peers[0])
    else
      assert peers == [peers[0]] + peers[1..];
      FirstWithKey(peers[1..], key)
  }

  lemma FirstIsUnique(peers: seq<Peer>, key: string, a: Option<Peer>, b: Option<Peer>)
    requires IsFirstWithKey(peers, key, a) && IsFirstWithKey(peers, key, b)
    ensures a == b
  {
  }

  /** The peers found for the keys when the file is read once per key. */
  ghost function Found(peers: seq<Peer>, keys: seq<string>, files: seq<Result<seq<Peer>>>): seq<Peer>
    requires |files| == |keys|
    decreases |keys|
  {
    if keys == [] then [] else
      var now := Reload(peers, files[0]);
      var found := FirstWithKey(now, keys[0]);
      (if found.Some? then [found.value] else []) + Found(now, keys[1..], files[1..])
  }

  /** One read more, and one peer more if the key is managed. */
  lemma FoundStep(peers: seq<Peer>, keys: seq<string>, files: seq<Result<seq<Peer>>>, i: nat)
    requires |files| == |keys| && i < |keys|
    ensures var now := Reload(peers, files[i]);
            var found := FirstWithKey(now, keys[i]);
            && LastReload(peers, files[i..]) == LastReload(now, files[i + 1..])
            && Found(peers, keys[i..], files[i..]) ==
               (if found.Some? then [found.value] else []) + Found(now, keys[i + 1..], files[i + 1..])
            && ManagedCount(peers, keys[i..], files[i..]) ==
               (if found.Some? then 1 else 0) + ManagedCount(now, keys[i + 1..], files[i + 1..])
  {
    assert keys[i..][1..] == keys[i + 1..] && files[i..][1..] == files[i + 1..];
  }

  lemma Reassociate<T>(a: seq<T>, b: seq<T>, c: seq<T>)
    ensures a + (b + c) == a + b + c
  {
  }

  /** The list in use after some reads is that of the last one that was valid. */
  lemma {:induction false} LastReloadIsLastValid(peers: seq<Peer>, files: seq<Result<seq<Peer>>>)
    ensures (forall i :: 0 <= i < |files| ==> files[i].Failed? || !ListValid(files[i].value)) ==>
              LastReload(peers, files) == peers
    ensures forall i :: 0 <= i < |files| && files[i].Ok? && ListValid(files[i].value) ==>
              (forall j :: i < j < |files| ==> files[j].Failed? || !ListValid(files[j].value)) ==>
                LastReload(peers, files) == files[i].value
    decreases |files|
  {
    if files != [] {
      LastReloadIsLastValid(Reload(peers, files[0]), files[1..]);
      assert forall i :: 0 < i < |files| ==> files[1..][i - 1] == files[i];
    }
  }

  lemma {:induction false} LastReloadSnoc(peers: seq<Peer>, files: seq<Result<seq<Peer>>>, file: Result<seq<Peer>>)
    ensures LastReload(peers, files + [file]) == Reload(LastReload(peers, files), file)
    decreases |files|
  {
    if files != [] {
      LastReloadSnoc(Reload(peers, files[0]), files[1..], file);
      assert (files + [file])[1..] == files[1..] + [file];
    } else {
      assert [file][1..] == [];
    }
  }

  lemma FoundFirst(peers: seq<Peer>, keys: seq<string>, files: seq<Result<seq<Peer>>>)
    requires |files| == |keys| > 0
    ensures var now := Reload(peers, files[0]);
            var found := FirstWithKey(now, keys[0]);
            Found(peers, keys, files) == (if found.Some? then [found.value] else []) + Found(now, keys[1..], files[1..])
  {
  }

  lemma {:induction false} FoundSnoc(peers: seq<Peer>, keys: seq<string>, files: seq<Result<seq<Peer>>>,
                                     key: string, file: Result<seq<Peer>>)
    requires |files| == |keys|
    ensures var found := FirstWithKey(LastReload(peers, files + [file]), key);
            Found(peers, keys + [key], files + [file]) ==
            Found(peers, keys, files) + if found.Some? then [found.value] else []
    decreases |keys|
  {
    FoundFirst(peers, keys + [key], files + [file]);
    if keys != [] {
      var now := Reload(peers, files[0]);
      assert (keys + [key])[1..] == keys[1..] + [key] && (files + [file])[1..] == files[1..] + [file];
      FoundFirst(peers, keys, files);
      FoundSnoc(now, keys[1..], files[1..], key, file);
      var first, found := FirstWithKey(now, keys[0]), FirstWithKey(LastReload(peers, files + [file]), key);
      Reassociate(if first.Some? then [first.value] else [], Found(now, keys[1..], files[1..]),
                  if found.Some? then [found.value] else []);
    } else {
      assert (keys + [key])[1..] == [] && (files + [file])[1..] == [];
    }
  }

  /** The peers found, key by key: one more key is passed over exactly if no peer of
      the list in use after its read has it; else the first that has it is found. */
  lemma FoundNext(peers: seq<Peer>, keys: seq<string>, files: seq<Result<seq<Peer>>>, key: string,
                  file: Result<seq<Peer>>)
    requires |files| == |keys|
    ensures var now := LastReload(peers, files + [file]);
            var more := Found(peers, keys + [key], files + [file]);
            && Found(peers, keys, files) <= more
            && if exists p :: p in now && p.privManKey == key then
                 && |more| == |Found(peers, keys, files)| + 1
                 && (exists i :: 0 <= i < |now| && now[i] == more[|more| - 1] && now[i].privManKey == key
                                 && forall j :: 0 <= j < i ==> now[j].privManKey != key)
               else more == Found(peers, keys, files)
  {
    FoundSnoc(peers, keys, files, key, file);
  }

  lemma {:induction false} FoundAreCounted(peers: seq<Peer>, keys: seq<string>, files: seq<Result<seq<Peer>>>)
    requires |files| == |keys|
    ensures |Found(peers, keys, files)| == ManagedCount(peers, keys, files)
    decreases |keys|
  {
    if keys != [] {
      FoundAreCounted(Reload(peers, files[0]), keys[1..], files[1..]);
    }
  }

  datatype ValidationError = SomeDidNotRespond | ShutdownElsewhere

  class PeerManager {
    const name: string
    var peers: seq<Peer>

    constructor (name: string, peers: seq<Peer>)
      ensures this.name == name && this.peers == peers
    {
      this.name, this.peers := name, peers;
    }

    /** Whatever the file holds, a valid list stays valid. */
    method ReadPeersConfig(file: Result<seq<Peer>>) returns (list: seq<Peer>)
      modifies this
      ensures list == peers == Reload(old(peers), file)
      ensures file.Ok? && ListValid(file.value) ==> peers == file.value
      ensures file.Failed? || !ListValid(file.value) ==> peers == old(peers)
      ensures old(ListValid(peers)) ==> ListValid(peers)
    {
      if file.Failed? {
        return peers;
      }
      var err := IsValid(file.value);
      if err.Some? {
        return peers;
      }
      peers := file.value;
      return peers;
    }

    predicate IsPeerSelf(peerName: string) {
      peerName != "" && peerName == name
    }

    /** Counts exactly the entries that are called. */
    method GetPeersCount(list: seq<Peer>) returns (count: nat)
      ensures count == |Others(name, list)|
    {
      count := 0;
      for i := 0 to |list|
        invariant count == |Others(name, list[..i])|
      {
        assert list[..i + 1][..i] == list[..i];
        if IsPeerSelf(list[i].name) {
          continue;
        }
        count := count + 1;
      }
      assert list[..|list|] == list;
    }

    /** One call for every entry but the own one, in the order of the list. */
    method LaunchPolls(list: seq<Peer>) returns (called: seq<Peer>)
      ensures called == Others(name, list)
    {
      called := [];
      for i := 0 to |list|
        invariant called == Others(name, list[..i])
      {
        assert list[..i + 1][..i] == list[..i];
        if IsPeerSelf(list[i].name) {
          continue;
        }
        called := called + [list[i]];
      }
      assert list[..|list|] == list;
    }

    /** One read of the file, the number of replies to wait for, and the peers that
        are called; a hibernator without peers calls nobody. */
    method PeerStatusCalls(file: Result<seq<Peer>>) returns (expected: nat, called: seq<Peer>)
      modifies this
      ensures peers == Reload(old(peers), file)
      ensures called == Others(name, peers) && expected == |called|
      ensures file.Ok? && ListValid(file.value) ==> peers == file.value
      ensures file.Failed? || !ListValid(file.value) ==> peers == old(peers) && called == Others(name, old(peers))
      ensures forall p :: p in called <==> p in peers && (p.name == "" || p.name != name)
    {
      var list := ReadPeersConfig(file);
      expected := GetPeersCount(list);
      if expected == 0 {
        OthersAreCalled(name, peers);
        return 0, [];
      }
      called := LaunchPolls(list);
      OthersAreCalled(name, peers);
    }

    method GetConfigByPrivManKey(key: string, file: Result<seq<Peer>>) returns (found: Option<Peer>)
      modifies this
      ensures peers == Reload(old(peers), file) && found == FirstWithKey(peers, key)
      ensures file.Ok? && ListValid(file.value) ==> peers == file.value
      ensures file.Failed? || !ListValid(file.value) ==> peers == old(peers)
      ensures found.None? ==> forall i :: 0 <= i < |peers| ==> peers[i].privManKey != key
      ensures found.Some? ==> exists i :: 0 <= i < |peers| && peers[i] == found.value && peers[i].privManKey == key
                                          && forall j :: 0 <= j < i ==> peers[j].privManKey != key
      ensures found.Some? <==> Manages(peers, key)
    {
      var list := ReadPeersConfig(file);
      for i := 0 to |list|
        invariant forall j :: 0 <= j < i ==> list[j].privManKey != key
      {
        if list[i].privManKey == key {
          assert list[i] in peers;
          FirstIsUnique(peers, key, Some(list[i]), FirstWithKey(peers, key));
          return Some(list[i]);
        }
      }
      FirstIsUnique(peers, key, None, FirstWithKey(peers, key));
      return None;
    }

    method PeersByParticipantKeyCount(keys: seq<string>, files: seq<Result<seq<Peer>>>) returns (count: nat)
      requires |files| == |keys|
      modifies this
      ensures count == ManagedCount(old(peers), keys, files) && peers == LastReload(old(peers), files)
    {
      count := 0;
      assert keys[0..] == keys && files[0..] == files;
      for i := 0 to |keys|
        invariant LastReload(peers, files[i..]) == LastReload(old(peers), files)
        invariant count + ManagedCount(peers, keys[i..], files[i..]) == ManagedCount(old(peers), keys, files)
      {
        FoundStep(peers, keys, files, i);
        var found := GetConfigByPrivManKey(keys[i], files[i]);
        if found.Some? {
          count := count + 1;
        }
      }
    }

    /** The sending pass: one call for every key that is found now. */
    method LaunchCalls(keys: seq<string>, files: seq<Result<seq<Peer>>>) returns (called: seq<Peer>)
      requires |files| == |keys|
      modifies this
      ensures called == Found(old(peers), keys, files) && peers == LastReload(old(peers), files)
    {
      called := [];
      assert keys[0..] == keys && files[0..] == files;
      for i := 0 to |keys|
        invariant LastReload(peers, files[i..]) == LastReload(old(peers), files)
        invariant called + Found(peers, keys[i..], files[i..]) == Found(old(peers), keys, files)
      {
        FoundStep(peers, keys, files, i);
        var found := GetConfigByPrivManKey(keys[i], files[i]);
        var more := if found.Some? then [found.value] else [];
        Reassociate(called, more, Found(peers, keys[i + 1..], files[i + 1..]));
        called := called + more;
      }
    }

    /** Both passes over the keys: the number of replies to wait for, and the peers
        that are then called; without a managed key nobody is. */
    method PeerPrivateTxCalls(keys: seq<string>, first: seq<Result<seq<Peer>>>, second: seq<Result<seq<Peer>>>)
      returns (expected: nat, called: seq<Peer>)
      requires |first| == |keys| == |second|
      modifies this
      ensures (expected, called) == Calls(old(peers), keys, first, second)
      ensures expected == ManagedCount(old(peers), keys, first)
      ensures called == if expected == 0 then [] else Found(LastReload(old(peers), first), keys, second)
    {
      expected := PeersByParticipantKeyCount(keys, first);
      if expected == 0 {
        return 0, [];
      }
      called := LaunchCalls(keys, second);
    }

    method ValidatePeers(expected: nat, statusArr: seq<NodeStatus>) returns (err: Option<ValidationError>)
      ensures err == None <==> PeersClear(expected, statusArr)
      ensures err == None <==>
              |statusArr| == expected && ShutdownInprogress !in statusArr && ConsensusWait !in statusArr
      ensures err == Some(SomeDidNotRespond) <==> |statusArr| != expected
    {
      if |statusArr| != expected {
        return Some(SomeDidNotRespond);
      }
      var shutdownInProgress := false;
      for i := 0 to |statusArr|
        invariant !shutdownInProgress
        invariant forall j :: 0 <= j < i ==> Clears(Answered(statusArr[j]))
      {
        if statusArr[i] == ShutdownInprogress || statusArr[i] == ConsensusWait {
          shutdownInProgress := true;
          break;
        }
      }
      if shutdownInProgress {
        return Some(ShutdownElsewhere);
      }
      return None;
    }

    method ValidatePeerPrivateTxStatus(statusArr: seq<bool>) returns (ready: bool)
      ensures ready <==> AllReady(statusArr)
      ensures ready <==> |statusArr| > 0 && false !in statusArr
    {
      ready := |statusArr| != 0;
      for i := 0 to |statusArr|
        invariant (ready <==> |statusArr| != 0) && forall j :: 0 <= j < i ==> statusArr[j]
      {
        if !statusArr[i] {
          ready := false;
          break;
        }
      }
    }
  }

  /** What the two passes over the peers file come to. */
  ghost function Calls(peers: seq<Peer>, keys: seq<string>, first: seq<Result<seq<Peer>>>,
                       second: seq<Result<seq<Peer>>>): (nat, seq<Peer>)
    requires |first| == |keys| == |second|
  {
    var expected := ManagedCount(peers, keys, first);
    (expected, if expected == 0 then [] else Found(LastReload(peers, first), keys, second))
  }

  /** A collector that counts to the first number, and a reply for each call. */
  ghost predicate JobFits(peers: seq<Peer>, keys: seq<string>, first: seq<Result<seq<Peer>>>,
                          second: seq<Result<seq<Peer>>>, job: Job<bool>)
    requires |first| == |keys| == |second|
  {
    var calls := Calls(peers, keys, first, second);
    job.expected == calls.0 && |job.replies| == |calls.1|
  }

  /** The private gather, exactly: whatever the reads return, every interleaving
      returns if and only if the second pass manages as many keys as the first,
      or one more. */
  lemma PrivateGatherIffPassesAgree(peers: seq<Peer>, keys: seq<string>, first: seq<Result<seq<Peer>>>,
                                    second: seq<Result<seq<Peer>>>, job: Job<bool>)
    requires |first| == |keys| == |second| && JobFits(peers, keys, first, second, job) && job.expected > 0
    ensures var a, b := ManagedCount(peers, keys, first), ManagedCount(LastReload(peers, first), keys, second);
            NeverStuck(job) <==> a <= b <= a + 1
  {
    FoundAreCounted(LastReload(peers, first), keys, second);
    NeverStuckIffCountsAgree(job);
  }

  /** Reading the same file again changes nothing. */
  lemma {:induction false} StableReload(peers: seq<Peer>, file: Result<seq<Peer>>, n: nat)
    ensures LastReload(peers, seq(n, _ => file)) == if n == 0 then peers else Reload(peers, file)
    decreases n
  {
    if n > 0 {
      StableReload(Reload(peers, file), file, n - 1);
      assert seq(n, _ => file)[1..] == seq(n - 1, _ => file);
      assert Reload(Reload(peers, file), file) == Reload(peers, file);
    }
  }

  /** The two passes over the peers file agree when it does not change. */
  lemma StableFileCountsAgree(peers: seq<Peer>, keys: seq<string>, file: Result<seq<Peer>>)
    ensures var same := seq(|keys|, _ => file);
            ManagedCount(LastReload(peers, same), keys, same) == ManagedCount(peers, keys, same)
  {
    StableReload(peers, file, |keys|);
    assert Reload(Reload(peers, file), file) == Reload(peers, file);
  }

  /** Main result: with a file that stays the same no interleaving of the private
      gather gets stuck, and each returns all replies without error. */
  lemma StableFileReturnsAll(peers: seq<Peer>, keys: seq<string>, file: Result<seq<Peer>>, job: Job<bool>,
                             steps: seq<Gather.Step>)
    requires var same := seq(|keys|, _ => file); JobFits(peers, keys, same, same, job)
    requires Gather.After(job, steps).Some?
    ensures job.expected == |job.replies|
    ensures Quiescent(job, Gather.After(job, steps).value) ==> Gather.After(job, steps).value.caller.Returned?
    ensures Gather.After(job, steps).value.caller.Returned? ==>
              multiset(Gather.After(job, steps).value.statusArr) == multiset(Goods(job.replies))
  {
    var same := seq(|keys|, _ => file);
    StableFileCountsAgree(peers, keys, file);
    FoundAreCounted(LastReload(peers, same), keys, same);
    if job.expected == 0 {
      ReturnsAtOnce(job, steps);
    } else {
      PrivateGatherIffPassesAgree(peers, keys, same, same, job);
    }
    if Gather.After(job, steps).value.caller.Returned? {
      ReturnsAllGoods(job, steps);
    }
  }

  /** A file that loses its one peer between the passes hangs the caller: it waits
      for one reply, and nobody is called. */
  lemma ShrinkingFileHangs(p: Peer, own: seq<Peer>) returns (job: Job<bool>, steps: seq<Gather.Step>)
    requires ListValid([p])
    ensures JobFits(own, [p.privManKey], [Ok([p])], [Ok([])], job)
    ensures Gather.After(job, steps).Some? && Quiescent(job, Gather.After(job, steps).value)
    ensures !Gather.After(job, steps).value.caller.Returned?
  {
    var key := p.privManKey;
    assert Reload(own, Ok([p])) == [p] && Reload([p], Ok([])) == [];
    assert p in [p] && Manages([p], key) && !Manages([], key);
    assert LastReload(own, [Ok([p])]) == LastReload([p], []);
    assert ManagedCount([p], [], []) == 0 && ManagedCount([], [], []) == 0;
    job := Job(1, []);
    FoundAreCounted([p], [key], [Ok([])]);
    NeverStuckIffCountsAgree(job);
    steps :| Gather.After(job, steps).Some? && Quiescent(job, Gather.After(job, steps).value)
             && !Gather.After(job, steps).value.caller.Returned?;
  }

  // ---- The verdict on the replies ------------------------------------------

  predicate PeersClear(expected: nat, statusArr: seq<NodeStatus>) {
    |statusArr| == expected && forall i :: 0 <= i < |statusArr| ==> Clears(Answered(statusArr[i]))
  }

  predicate AllReady(statusArr: seq<bool>) {
    statusArr != [] && forall i :: 0 <= i < |statusArr| ==> statusArr[i]
  }

  lemma {:induction false} GoodsFacts<T>(replies: seq<Option<T>>)
    ensures |Goods(replies)| <= |replies|
    ensures |Goods(replies)| == |replies| <==> forall i :: 0 <= i < |replies| ==> replies[i].Some?
    ensures forall x :: x in Goods(replies) <==> Some(x) in replies
    decreases |replies|
  {
    if replies != [] {
      var n := |replies| - 1;
      var front, last := replies[..n], replies[n];
      GoodsFacts(front);
      assert replies == front + [last];
      assert forall i :: 0 <= i < n ==> front[i] == replies[i];
    }
  }

  /** Equal bags have equal sizes and equal members. */
  lemma SameBag<T>(a: seq<T>, b: seq<T>)
    requires multiset(a) == multiset(b)
    ensures |a| == |b| && forall x :: x in a <==> x in b
  {
    assert |multiset(a)| == |a| && |multiset(b)| == |b|;
    assert forall x :: x in a <==> x in multiset(a);
    assert forall x :: x in b <==> x in multiset(b);
  }

  /** Main result: whatever the order in which replies arrive, the peers are
      clear iff every one of them answered, and with a status that clears. */
  lemma VerdictIsOrderFree(job: Job<NodeStatus>, steps: seq<Gather.Step>)
    requires job.expected == |job.replies|
    requires Gather.After(job, steps).Some? && Gather.After(job, steps).value.caller.Returned?
    ensures PeersClear(job.expected, Gather.After(job, steps).value.statusArr) <==>
            forall i :: 0 <= i < |job.replies| ==> job.replies[i].Some? && Clears(Answered(job.replies[i].value))
  {
    ReturnsAllGoods(job, steps);
    var arrived := Gather.After(job, steps).value.statusArr;
    SameBag(arrived, Goods(job.replies));
    GoodsFacts(job.replies);
    if PeersClear(job.expected, arrived) {
      forall i | 0 <= i < |job.replies| ensures Clears(Answered(job.replies[i].value)) {
        assert job.replies[i].value in arrived;
      }
    } else if |arrived| == job.expected {
      var k :| 0 <= k < |arrived| && !Clears(Answered(arrived[k]));
      assert Some(arrived[k]) in job.replies;
    }
  }

  /** Main result: whatever the list in use, the own entry included or not, no
      interleaving of the poll gets stuck, each returns all replies without error,
      and the peers are clear iff every other entry answered with a clearing status. */
  lemma PollReturnsAll(self: string, peers: seq<Peer>, replies: seq<Option<NodeStatus>>, steps: seq<Gather.Step>)
    requires |replies| == |Others(self, peers)|
    requires Gather.After(Job(|replies|, replies), steps).Some?
    ensures var s := Gather.After(Job(|replies|, replies), steps).value;
            && (Quiescent(Job(|replies|, replies), s) ==> s.caller.Returned?)
            && (s.caller.Returned? ==>
                  && multiset(s.statusArr) == multiset(Goods(replies))
                  && (PeersClear(|Others(self, peers)|, s.statusArr) <==>
                      forall i :: 0 <= i < |replies| ==> replies[i].Some? && Clears(Answered(replies[i].value))))
  {
    var job := Job(|replies|, replies);
    if job.expected == 0 {
      ReturnsAtOnce(job, steps);
    } else {
      NeverStuckIffCountsAgree(job);
    }
    if Gather.After(job, steps).value.caller.Returned? {
      ReturnsAllGoods(job, steps);
      VerdictIsOrderFree(job, steps);
    }
  }

  function ToMessage(r: Reply): Option<NodeStatus> {
    if r.Answered? then Some(r.status) else None
  }

  /** The calls made on behalf of the shutdown protocol, one for each peer. */
  function PollJob(peers: seq<Node>, replies: map<Node, Reply>): Job<NodeStatus>
    requires forall q :: q in peers ==> q in replies
  {
    Job(|peers|, seq(|peers|, i requires 0 <= i < |peers| => ToMessage(replies[peers[i]])))
  }

  /** The single decision step of the shutdown protocol is what scatter, gather
      and validation compute, for every interleaving of the calls. */
  lemma GatherRefinesDecide(peers: seq<Node>, replies: map<Node, Reply>, steps: seq<Gather.Step>)
    requires forall q :: q in peers <==> q in replies
    requires var job := PollJob(peers, replies);
             Gather.After(job, steps).Some? && Gather.After(job, steps).value.caller.Returned?
    ensures PeersClear(|peers|, Gather.After(PollJob(peers, replies), steps).value.statusArr) <==> AllClear(replies)
  {
    var job := PollJob(peers, replies);
    VerdictIsOrderFree(job, steps);
    assert forall i :: 0 <= i < |peers| ==> job.replies[i] == ToMessage(replies[peers[i]]);
    if forall i :: 0 <= i < |job.replies| ==> job.replies[i].Some? && Clears(Answered(job.replies[i].value)) {
      forall q | q in replies ensures Clears(replies[q]) {
        var i :| 0 <= i < |peers| && peers[i] == q;
        assert job.replies[i].Some? && Clears(Answered(job.replies[i].value));
      }
    } else {
      var i :| 0 <= i < |job.replies| && !(job.replies[i].Some? && Clears(Answered(job.replies[i].value)));
      assert peers[i] in replies && !Clears(replies[peers[i]]);
    }
  }

  /** Main result: a private transaction is let through iff at least one managed
      participant answered, and every one that answered is ready. */
  lemma ReadinessIsOrderFree(job: Job<bool>, steps: seq<Gather.Step>)
    requires job.expected == |job.replies|
    requires Gather.After(job, steps).Some? && Gather.After(job, steps).value.caller.Returned?
    ensures AllReady(Gather.After(job, steps).value.statusArr) <==>
            Some(true) in job.replies && Some(false) !in job.replies
  {
    ReturnsAllGoods(job, steps);
    var arrived := Gather.After(job, steps).value.statusArr;
    SameBag(arrived, Goods(job.replies));
    GoodsFacts(job.replies);
    assert AllReady(arrived) <==> true in arrived && false !in arrived by {
      if arrived != [] { assert arrived[0] in arrived; }
    }
  }
}
