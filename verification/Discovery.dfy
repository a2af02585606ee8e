/** Peer discovery: seed-list entries, resolved services, and the order in which
    peers are handed to the consumer. Socket addresses are an arbitrary type with an
    arbitrary parser. */
module Discovery {
  import opened Common
  import Hex

  datatype DiscoveredPeer<A> = DiscoveredPeer(peer: PeerId, addr: A, zenohUrl: string, viaMdns: bool)

  datatype Reason = NoSeparator | BadPeer(error: Hex.PeerIdError) | BadAddress

  datatype DiscoveryError = BadSeed(entry: string, reason: Reason) | Mdns

  // ----- Seed entries -----

  /** Split at the first `c`. */
  function SplitOnce(s: string, c: char): Option<(string, string)> {
    if s == "" then None
    else if s[0] == c then Some(("", s[1..]))
    else
      match SplitOnce(s[1..], c)
      case None => None
      case Some((left, right)) => Some(([s[0]] + left, right))
  }

  lemma {:induction false} SplitOnceExact(s: string, c: char)
    ensures SplitOnce(s, c) == None <==> c !in s
    ensures SplitOnce(s, c).Some? ==>
      s == SplitOnce(s, c).value.0 + [c] + SplitOnce(s, c).value.1 && c !in SplitOnce(s, c).value.0
  {
    if s != "" && s[0] != c {
      SplitOnceExact(s[1..], c);
      assert s == [s[0]] + s[1..];
    }
  }

  lemma {:induction false} SplitOnceFinds(left: string, c: char, right: string)
    requires c !in left
    ensures SplitOnce(left + [c] + right, c) == Some((left, right))
  {
    var s := left + [c] + right;
    if left == "" {
      assert s[0] == c && s[1..] == right;
    } else {
      assert left[0] in left;
      SplitOnceFinds(left[1..], c, right);
      assert s[1..] == left[1..] + [c] + right;
      assert [left[0]] + left[1..] == left;
    }
  }

  /** The part after the key: an address, and the URL after its first slash. */
  function ParseRest<A>(parse: string -> Option<A>, entry: string, peer: PeerId, rest: string)
    : Result<DiscoveredPeer<A>, DiscoveryError>
  {
    var split := SplitOnce(rest, '/');
    var hostPort := if split.Some? then split.value.0 else rest;
    var url := if split.Some? then split.value.1 else "tcp/" + hostPort;
    match parse(hostPort)
    case None => Err(BadSeed(entry, BadAddress))
    case Some(addr) => Ok(DiscoveredPeer(peer, addr, url, false))
  }

  /** `parse_seed`. */
  function ParseSeed<A>(parse: string -> Option<A>, entry: string): Result<DiscoveredPeer<A>, DiscoveryError> {
    match SplitOnce(entry, '@')
    case None => Err(BadSeed(entry, NoSeparator))
    case Some((hex, rest)) =>
      match Hex.FromHex(hex)
      case Err(e) => Err(BadSeed(entry, BadPeer(e)))
      case Ok(peer) => ParseRest(parse, entry, peer, rest)
  }

  function PrintRest(hostPort: string, url: Option<string>): string {
    if url.Some? then hostPort + "/" + url.value else hostPort
  }

  /** A seed entry with the key in any letter case. */
  function PrintSeed(hex: string, hostPort: string, url: Option<string>): string {
    hex + "@" + PrintRest(hostPort, url)
  }

  /** These parts spell out this peer. */
  ghost predicate Spells<A>(parse: string -> Option<A>, hex: string, hostPort: string, url: Option<string>,
                            p: DiscoveredPeer<A>)
  {
    && Hex.Lowered(hex) == Hex.Encode(p.peer)
    && '/' !in hostPort && parse(hostPort) == Some(p.addr)
    && p.zenohUrl == (if url.Some? then url.value else "tcp/" + hostPort)
    && !p.viaMdns
  }

  lemma {:induction false} HexHasNoAt(s: string)
    requires Hex.AllHex(s)
    ensures '@' !in s
  {
    if s != "" {
      assert Hex.Nibble(s[0]).Some?;
      assert forall i :: 0 <= i < |s| - 1 ==> s[1..][i] == s[i + 1];
      HexHasNoAt(s[1..]);
      assert s == [s[0]] + s[1..];
    }
  }

  lemma ParseRestExact<A>(parse: string -> Option<A>, entry: string, peer: PeerId, rest: string)
    ensures forall hostPort, url: Option<string> :: '/' !in hostPort && rest == PrintRest(hostPort, url) ==>
      ParseRest(parse, entry, peer, rest) ==
        match parse(hostPort)
        case None => Err(BadSeed(entry, BadAddress))
        case Some(addr) => Ok(DiscoveredPeer(peer, addr, if url.Some? then url.value else "tcp/" + hostPort, false))
    ensures exists hostPort, url: Option<string> :: '/' !in hostPort && rest == PrintRest(hostPort, url)
  {
    SplitOnceExact(rest, '/');
    forall hostPort, url: Option<string> | '/' !in hostPort && rest == PrintRest(hostPort, url)
      ensures url.Some? ==> SplitOnce(rest, '/') == Some((hostPort, url.value))
      ensures url.None? ==> SplitOnce(rest, '/') == None
    {
      if url.Some? {
        SplitOnceFinds(hostPort, '/', url.value);
      }
    }
    var split := SplitOnce(rest, '/');
    if split.Some? {
      assert rest == PrintRest(split.value.0, Some(split.value.1));
    } else {
      assert rest == PrintRest(rest, None);
    }
  }

  /** Seed parsing is exact: an entry reads as a peer if and only if it is a key in
      any letter case, an at sign, a slash-free address that parses, and optionally a
      slash and any URL; without one the URL is `tcp/` and the address. */
  lemma ParseSeedExact<A>(parse: string -> Option<A>, entry: string, p: DiscoveredPeer<A>)
    ensures ParseSeed(parse, entry) == Ok(p) <==>
      exists hex, hostPort, url: Option<string> ::
        entry == PrintSeed(hex, hostPort, url) && Spells(parse, hex, hostPort, url, p)
  {
    SplitOnceExact(entry, '@');
    if ParseSeed(parse, entry) == Ok(p) {
      var (hex, rest) := SplitOnce(entry, '@').value;
      Hex.FromHexExact(hex, p.peer);
      ParseRestExact(parse, entry, p.peer, rest);
      var hostPort, url: Option<string> :| '/' !in hostPort && rest == PrintRest(hostPort, url);
      assert entry == PrintSeed(hex, hostPort, url) && Spells(parse, hex, hostPort, url, p);
    }
    if hex, hostPort, url: Option<string> :| entry == PrintSeed(hex, hostPort, url) && Spells(parse, hex, hostPort, url, p) {
      SeedReads(parse, hex, hostPort, url, p);
    }
  }

  /** Printing then parsing recovers every part. */
  lemma SeedReads<A>(parse: string -> Option<A>, hex: string, hostPort: string, url: Option<string>, p: DiscoveredPeer<A>)
    requires Spells(parse, hex, hostPort, url, p)
    ensures ParseSeed(parse, PrintSeed(hex, hostPort, url)) == Ok(p)
  {
    Hex.FromHexExact(hex, p.peer);
    HexHasNoAt(hex);
    var rest := PrintRest(hostPort, url);
    SplitOnceFinds(hex, '@', rest);
    ParseRestExact(parse, PrintSeed(hex, hostPort, url), p.peer, rest);
  }

  // ----- Resolved services -----

  datatype Txt = Txt(key: string, value: string)

  /** A resolved service: its TXT records, and its addresses with the service port. */
  datatype Service<A> = Service(txt: seq<Txt>, addrs: seq<A>)

  /** The value of the last record with this key, in any letter case. */
  function LastValue(txt: seq<Txt>, key: string): Option<string> {
    if txt == [] then None
    else if Hex.Lowered(txt[|txt| - 1].key) == key then Some(txt[|txt| - 1].value)
    else LastValue(txt[..|txt| - 1], key)
  }

  function Resolution<A>(svc: Service<A>): Option<DiscoveredPeer<A>> {
    var hex, url := LastValue(svc.txt, "peer"), LastValue(svc.txt, "zenoh");
    if hex.None? || url.None? || svc.addrs == [] then None else
    match Hex.FromHex(hex.value)
    case Err(_) => None
    case Ok(peer) => Some(DiscoveredPeer(peer, svc.addrs[0], url.value, true))
  }

  /** The two keys, in any letter case. */
  predicate SaysPeer(key: string) {
    |key| == 4 && key[0] in "pP" && key[1] in "eE" && key[2] in "eE" && key[3] in "rR"
  }

  predicate SaysZenoh(key: string) {
    |key| == 5 && key[0] in "zZ" && key[1] in "eE" && key[2] in "nN" && key[3] in "oO" && key[4] in "hH"
  }

  /** Record `i` is the last one whose key says `peer`. */
  ghost predicate LastPeer(txt: seq<Txt>, i: int) {
    0 <= i < |txt| && SaysPeer(txt[i].key) && forall j :: i < j < |txt| ==> !SaysPeer(txt[j].key)
  }

  ghost predicate LastZenoh(txt: seq<Txt>, i: int) {
    0 <= i < |txt| && SaysZenoh(txt[i].key) && forall j :: i < j < |txt| ==> !SaysZenoh(txt[j].key)
  }

  /** The service advertises this peer: its last `peer` record reads as the key, its last
      `zenoh` record is the URL, and it has an address. */
  ghost predicate Advertises<A>(svc: Service<A>, p: DiscoveredPeer<A>) {
    && (exists i :: LastPeer(svc.txt, i) && Hex.FromHex(svc.txt[i].value) == Ok(p.peer))
    && (exists j :: LastZenoh(svc.txt, j) && svc.txt[j].value == p.zenohUrl)
    && svc.addrs != [] && p.addr == svc.addrs[0]
    && p.viaMdns
  }

  /** The service advertises somebody. */
  ghost predicate Advertising<A>(svc: Service<A>) {
    && (exists i :: LastPeer(svc.txt, i) && Hex.FromHex(svc.txt[i].value).Ok?)
    && (exists j :: LastZenoh(svc.txt, j))
    && svc.addrs != []
  }

  lemma {:induction false} LetterInAnyCase(s: string, i: nat, small: char, capital: char)
    requires i < |s| && 'a' <= small <= 'z' && capital as int == small as int - 32
    ensures Hex.Lowered(s)[i] == small <==> s[i] == small || s[i] == capital
  {
    if i > 0 {
      LetterInAnyCase(s[1..], i - 1, small, capital);
    }
  }

  lemma PeerInAnyCase(s: string)
    ensures Hex.Lowered(s) == "peer" <==> SaysPeer(s)
  {
    if |s| == 4 {
      LetterInAnyCase(s, 0, 'p', 'P');
      LetterInAnyCase(s, 1, 'e', 'E');
      LetterInAnyCase(s, 2, 'e', 'E');
      LetterInAnyCase(s, 3, 'r', 'R');
      var t := Hex.Lowered(s);
      assert t == "peer" <==> t[0] == 'p' && t[1] == 'e' && t[2] == 'e' && t[3] == 'r';
    }
  }

  lemma ZenohInAnyCase(s: string)
    ensures Hex.Lowered(s) == "zenoh" <==> SaysZenoh(s)
  {
    if |s| == 5 {
      LetterInAnyCase(s, 0, 'z', 'Z');
      LetterInAnyCase(s, 1, 'e', 'E');
      LetterInAnyCase(s, 2, 'n', 'N');
      LetterInAnyCase(s, 3, 'o', 'O');
      LetterInAnyCase(s, 4, 'h', 'H');
      var t := Hex.Lowered(s);
      assert t == "zenoh" <==> t[0] == 'z' && t[1] == 'e' && t[2] == 'n' && t[3] == 'o' && t[4] == 'h';
    }
  }

  /** `LastValue` is the value of the last record with that key. */
  lemma {:induction false} LastValueAt(txt: seq<Txt>, key: string) returns (i: int)
    ensures LastValue(txt, key) == None <==> i == -1
    ensures i != -1 ==> 0 <= i < |txt| && Hex.Lowered(txt[i].key) == key && LastValue(txt, key) == Some(txt[i].value)
    ensures -1 <= i && forall j :: i < j < |txt| ==> Hex.Lowered(txt[j].key) != key
    decreases |txt|
  {
    if txt == [] {
      i := -1;
    } else if Hex.Lowered(txt[|txt| - 1].key) == key {
      i := |txt| - 1;
    } else {
      i := LastValueAt(txt[..|txt| - 1], key);
    }
  }

  lemma LastPeerIs(txt: seq<Txt>)
    ensures LastValue(txt, "peer") == None <==> forall i :: !LastPeer(txt, i)
    ensures forall i :: LastPeer(txt, i) ==> LastValue(txt, "peer") == Some(txt[i].value)
  {
    var last := LastValueAt(txt, "peer");
    forall i | 0 <= i < |txt| ensures Hex.Lowered(txt[i].key) == "peer" <==> SaysPeer(txt[i].key) {
      PeerInAnyCase(txt[i].key);
    }
    assert last != -1 ==> LastPeer(txt, last);
  }

  lemma LastZenohIs(txt: seq<Txt>)
    ensures LastValue(txt, "zenoh") == None <==> forall i :: !LastZenoh(txt, i)
    ensures forall i :: LastZenoh(txt, i) ==> LastValue(txt, "zenoh") == Some(txt[i].value)
  {
    var last := LastValueAt(txt, "zenoh");
    forall i | 0 <= i < |txt| ensures Hex.Lowered(txt[i].key) == "zenoh" <==> SaysZenoh(txt[i].key) {
      ZenohInAnyCase(txt[i].key);
    }
    assert last != -1 ==> LastZenoh(txt, last);
  }

  /** A service resolves exactly when it advertises somebody, and to whom it advertises. */
  lemma ResolutionExactly<A>(svc: Service<A>)
    ensures Resolution(svc).Some? <==> Advertising(svc)
    ensures Resolution(svc).Some? ==> Advertises(svc, Resolution(svc).value)
  {
    LastPeerIs(svc.txt);
    LastZenohIs(svc.txt);
  }

  /** What a peer registers for itself is found as that peer. */
  lemma OwnServiceResolves<A>(peer: PeerId, url: string, addrs: seq<A>)
    requires addrs != []
    ensures Resolution(Service([Txt("peer", Hex.Encode(peer)), Txt("zenoh", url)], addrs))
         == Some(DiscoveredPeer(peer, addrs[0], url, true))
  {
    var txt := [Txt("peer", Hex.Encode(peer)), Txt("zenoh", url)];
    LastPeerIs(txt);
    LastZenohIs(txt);
    assert LastPeer(txt, 0) && LastZenoh(txt, 1);
    Hex.FromHexExact(Hex.Encode(peer), peer);
  }

  /** `resolve_to_peer`: a later record overrides an earlier one. */
  method ResolveToPeer<A>(svc: Service<A>) returns (r: Option<DiscoveredPeer<A>>)
    ensures r == Resolution(svc)
    ensures r.Some? <==> Advertising(svc)
    ensures r.Some? ==> Advertises(svc, r.value)
  {
    ResolutionExactly(svc);
    var peerHex: Option<string>, zenohUrl: Option<string> := None, None;
    for i := 0 to |svc.txt|
      invariant peerHex == LastValue(svc.txt[..i], "peer")
      invariant zenohUrl == LastValue(svc.txt[..i], "zenoh")
    {
      assert svc.txt[..i + 1][..i] == svc.txt[..i];
      var key := Hex.Lowered(svc.txt[i].key);
      if key == "peer" {
        peerHex := Some(svc.txt[i].value);
      } else if key == "zenoh" {
        zenohUrl := Some(svc.txt[i].value);
      }
    }
    assert svc.txt[..|svc.txt|] == svc.txt;
    if peerHex.None? || zenohUrl.None? {
      return None;
    }
    var peer := Hex.FromHex(peerHex.value);
    if peer.Err? || svc.addrs == [] {
      return None;
    }
    r := Some(DiscoveredPeer(peer.value, svc.addrs[0], zenohUrl.value, true));
  }

  // ----- The discovery run -----

  datatype BrowseEvent<A> = ServiceResolved(svc: Service<A>) | Other

  datatype Config = Config(localPeer: Option<PeerId>, localUrl: Option<string>, seeds: seq<string>, seedsOnly: bool)

  /** The mDNS daemon: whether each call succeeds, and what browsing yields until its
      channel closes. */
  datatype Daemon<A> = Daemon(starts: bool, registers: bool, browses: bool, events: seq<BrowseEvent<A>>)

  predicate Browsing<A>(cfg: Config, d: Daemon<A>) {
    d.starts && (cfg.localPeer.Some? && cfg.localUrl.Some? ==> d.registers) && d.browses
  }

  /** The seeds before the first bad one. */
  function GoodSeeds<A>(parse: string -> Option<A>, seeds: seq<string>): (r: seq<DiscoveredPeer<A>>)
    ensures |r| <= |seeds|
    ensures |r| < |seeds| ==> ParseSeed(parse, seeds[|r|]).Err?
  {
    if seeds == [] || ParseSeed(parse, seeds[0]).Err? then []
    else [ParseSeed(parse, seeds[0]).value] + GoodSeeds(parse, seeds[1..])
  }

  /** The resolved peers, without the local one. */
  function Found<A>(local: Option<PeerId>, events: seq<BrowseEvent<A>>): seq<DiscoveredPeer<A>> {
    if events == [] then [] else
    var rest := Found(local, events[1..]);
    if events[0].Other? then rest else
    var p := Resolution(events[0].svc);
    if p.None? || Some(p.value.peer) == local then rest else [p.value] + rest
  }

  /** Everything a consumer that stays would be handed, in order. */
  function Stream<A>(parse: string -> Option<A>, cfg: Config, d: Daemon<A>): seq<DiscoveredPeer<A>> {
    var good := GoodSeeds(parse, cfg.seeds);
    if |good| < |cfg.seeds| || cfg.seedsOnly || !Browsing(cfg, d) then good
    else good + Found(cfg.localPeer, d.events)
  }

  /** How the run ends for a consumer that takes `accepts` peers and then leaves. A
      bad seed is reported only once every seed before it has been taken. */
  function Ending<A>(parse: string -> Option<A>, cfg: Config, d: Daemon<A>, accepts: nat): Option<DiscoveryError> {
    var good := |GoodSeeds(parse, cfg.seeds)|;
    if accepts < good then None
    else if good < |cfg.seeds| then Some(ParseSeed(parse, cfg.seeds[good]).error)
    else if cfg.seedsOnly || Browsing(cfg, d) then None
    else Some(Mdns)
  }

  function Take<T>(s: seq<T>, n: nat): (r: seq<T>)
    ensures r <= s && |r| == if n < |s| then n else |s|
  {
    if n < |s| then s[..n] else s
  }

  /** Send the seeds in order, until one is bad or the consumer has left. */
  method SendSeeds<A>(parse: string -> Option<A>, seeds: seq<string>, accepts: nat)
    returns (emitted: seq<DiscoveredPeer<A>>, left: bool, error: Option<DiscoveryError>)
    ensures var good := GoodSeeds(parse, seeds);
      && emitted == Take(good, accepts)
      && left == (accepts < |good|)
      && error == (if left || |good| == |seeds| then None else Some(ParseSeed(parse, seeds[|good|]).error))
  {
    emitted, left, error := [], false, None;
    assert seeds[0..] == seeds;
    for i := 0 to |seeds|
      invariant i == |emitted| <= accepts
      invariant GoodSeeds(parse, seeds) == emitted + GoodSeeds(parse, seeds[i..])
    {
      var peer := ParseSeed(parse, seeds[i]);
      NextSeed(parse, seeds, i, emitted);
      if peer.Err? {
        return emitted, false, Some(peer.error);
      }
      if |emitted| == accepts {
        return emitted, true, None;
      }
      emitted := emitted + [peer.value];
    }
    assert emitted + [] == emitted;
  }

  /** Hand over what browsing resolves, until the channel closes or the consumer has
      left. */
  method Browse<A>(local: Option<PeerId>, events: seq<BrowseEvent<A>>, sent: seq<DiscoveredPeer<A>>, accepts: nat)
    returns (emitted: seq<DiscoveredPeer<A>>)
    requires |sent| <= accepts
    ensures emitted == Take(sent + Found(local, events), accepts)
  {
    emitted := sent;
    var k := 0;
    assert events[0..] == events;
    while k < |events|
      invariant k <= |events| && |emitted| <= accepts
      invariant sent + Found(local, events) == emitted + Found(local, events[k..])
    {
      NextEvent(local, events, k, emitted);
      if events[k].ServiceResolved? {
        var peer := ResolveToPeer(events[k].svc);
        if peer.Some? && Some(peer.value.peer) != local {
          if |emitted| == accepts {
            return;
          }
          emitted := emitted + [peer.value];
        }
      }
      k := k + 1;
    }
    assert emitted + [] == emitted;
  }

  /** `Discovery::run`. Sending fails once the consumer has left. */
  method Run<A>(parse: string -> Option<A>, cfg: Config, d: Daemon<A>, accepts: nat)
    returns (emitted: seq<DiscoveredPeer<A>>, error: Option<DiscoveryError>)
    ensures emitted == Take(Stream(parse, cfg, d), accepts)
    ensures error == Ending(parse, cfg, d, accepts)
  {
    var left;
    emitted, left, error := SendSeeds(parse, cfg.seeds, accepts);
    if left || error.Some? || cfg.seedsOnly {
      return;
    }
    if !d.starts {
      return emitted, Some(Mdns);
    }
    if cfg.localPeer.Some? && cfg.localUrl.Some? && !d.registers {
      return emitted, Some(Mdns);
    }
    if !d.browses {
      return emitted, Some(Mdns);
    }
    emitted := Browse(cfg.localPeer, d.events, emitted, accepts);
  }

  lemma NextSeed<A>(parse: string -> Option<A>, seeds: seq<string>, i: nat, sent: seq<DiscoveredPeer<A>>)
    requires i < |seeds|
    ensures ParseSeed(parse, seeds[i]).Err? ==> GoodSeeds(parse, seeds[i..]) == [] && sent + [] == sent
    ensures ParseSeed(parse, seeds[i]).Ok? ==>
      sent + GoodSeeds(parse, seeds[i..]) == sent + [ParseSeed(parse, seeds[i]).value] + GoodSeeds(parse, seeds[i + 1..])
  {
    assert seeds[i..][1..] == seeds[i + 1..];
    if ParseSeed(parse, seeds[i]).Ok? {
      Regroup(sent, ParseSeed(parse, seeds[i]).value, GoodSeeds(parse, seeds[i + 1..]));
    }
  }

  lemma Regroup<T>(a: seq<T>, x: T, b: seq<T>)
    ensures a + ([x] + b) == a + [x] + b
  {
  }

  lemma NextEvent<A>(local: Option<PeerId>, events: seq<BrowseEvent<A>>, k: nat, sent: seq<DiscoveredPeer<A>>)
    requires k < |events|
    ensures var e := events[k];
      sent + Found(local, events[k..]) ==
        (if e.ServiceResolved? && Resolution(e.svc).Some? && Some(Resolution(e.svc).value.peer) != local
         then sent + [Resolution(e.svc).value] else sent) + Found(local, events[k + 1..])
  {
    assert events[k..][1..] == events[k + 1..];
  }

  /** In every run, seeds come before any mDNS peer, in list order, and the local
      peer is never handed over as an mDNS find. */
  lemma SeedsFirst<A>(parse: string -> Option<A>, cfg: Config, d: Daemon<A>, accepts: nat, i: nat)
    requires i < |Take(Stream(parse, cfg, d), accepts)|
    ensures var p := Take(Stream(parse, cfg, d), accepts)[i];
      && (p.viaMdns <==> i >= |GoodSeeds(parse, cfg.seeds)|)
      && (p.viaMdns ==> !cfg.seedsOnly && Some(p.peer) != cfg.localPeer)
      && (!p.viaMdns ==> i < |cfg.seeds| && ParseSeed(parse, cfg.seeds[i]) == Ok(p))
  {
    var good := |GoodSeeds(parse, cfg.seeds)|;
    assert Take(Stream(parse, cfg, d), accepts)[i] == Stream(parse, cfg, d)[i];
    if i < good {
      GoodSeedAt(parse, cfg.seeds, i);
    } else {
      FoundAt(cfg.localPeer, d.events, i - good);
    }
  }

  /** The last `peer` record reads as a key that is not the local one, and the rest is
      there. */
  ghost predicate AdvertisesOther<A>(svc: Service<A>, local: Option<PeerId>) {
    && (exists i :: LastPeer(svc.txt, i) && Hex.FromHex(svc.txt[i].value).Ok? && Some(Hex.FromHex(svc.txt[i].value).value) != local)
    && (exists j :: LastZenoh(svc.txt, j))
    && svc.addrs != []
  }

  /** `found` comes from the events at these positions, in order, and from no others. */
  ghost predicate ComesFrom<A>(local: Option<PeerId>, events: seq<BrowseEvent<A>>, found: seq<DiscoveredPeer<A>>, at: seq<nat>) {
    && |at| == |found|
    && (forall i :: 0 <= i < |at| ==> FoundIn(local, events, found[i], at[i]))
    && (forall i, j :: 0 <= i < j < |at| ==> at[i] < at[j])
    && (forall k :: 0 <= k < |events| && events[k].ServiceResolved? && AdvertisesOther(events[k].svc, local) ==> k in at)
  }

  ghost predicate FoundIn<A>(local: Option<PeerId>, events: seq<BrowseEvent<A>>, p: DiscoveredPeer<A>, k: nat) {
    k < |events| && events[k].ServiceResolved? && Advertises(events[k].svc, p) && Some(p.peer) != local
  }

  lemma ComesFromMore<A>(local: Option<PeerId>, events: seq<BrowseEvent<A>>, found: seq<DiscoveredPeer<A>>, at: seq<nat>,
                         p: DiscoveredPeer<A>)
    requires events != [] && ComesFrom(local, events[..|events| - 1], found, at) && FoundIn(local, events, p, |events| - 1)
    ensures ComesFrom(local, events, found + [p], at + [|events| - 1])
  {
    forall i | 0 <= i < |at| ensures FoundIn(local, events, found[i], at[i]) {
      assert FoundIn(local, events[..|events| - 1], found[i], at[i]);
    }
  }

  lemma ComesFromSame<A>(local: Option<PeerId>, events: seq<BrowseEvent<A>>, found: seq<DiscoveredPeer<A>>, at: seq<nat>)
    requires events != [] && ComesFrom(local, events[..|events| - 1], found, at)
    requires var e := events[|events| - 1]; e.ServiceResolved? ==> !AdvertisesOther(e.svc, local)
    ensures ComesFrom(local, events, found, at)
  {
    forall i | 0 <= i < |at| ensures FoundIn(local, events, found[i], at[i]) {
      assert FoundIn(local, events[..|events| - 1], found[i], at[i]);
    }
  }

  /** What browsing finds, in full: the services resolved that advertise somebody other
      than the local peer, each once and in order. */
  lemma {:induction false} FoundExactly<A>(local: Option<PeerId>, events: seq<BrowseEvent<A>>) returns (at: seq<nat>)
    ensures ComesFrom(local, events, Found(local, events), at)
    decreases |events|
  {
    if events == [] {
      return [];
    }
    var n := |events| - 1;
    var e := events[n];
    at := FoundExactly(local, events[..n]);
    FoundLast(local, events);
    if e.ServiceResolved? && Resolution(e.svc).Some? && Some(Resolution(e.svc).value.peer) != local {
      ResolutionExactly(e.svc);
      ComesFromMore(local, events, Found(local, events[..n]), at, Resolution(e.svc).value);
      at := at + [n];
    } else {
      if e.ServiceResolved? {
        OnlyOnePeer(e.svc, local);
      }
      ComesFromSame(local, events, Found(local, events[..n]), at);
    }
  }

  lemma OnlyOnePeer<A>(svc: Service<A>, local: Option<PeerId>)
    requires Resolution(svc).None? || Some(Resolution(svc).value.peer) == local
    ensures !AdvertisesOther(svc, local)
  {
    LastPeerIs(svc.txt);
    LastZenohIs(svc.txt);
  }

  lemma {:induction false} FoundLast<A>(local: Option<PeerId>, events: seq<BrowseEvent<A>>)
    requires events != []
    ensures var e := events[|events| - 1];
      Found(local, events) == Found(local, events[..|events| - 1])
        + (if e.ServiceResolved? && Resolution(e.svc).Some? && Some(Resolution(e.svc).value.peer) != local
           then [Resolution(e.svc).value] else [])
    decreases |events|
  {
    if |events| > 1 {
      FoundLast(local, events[1..]);
      assert events[1..][..|events| - 2] == events[..|events| - 1][1..];
    }
  }

  /** Everything is handed over. With good seeds, a daemon that starts, registers and
      browses, and mDNS wanted, the stream is the seeds in order and then everything that
      browsing finds. */
  lemma NothingIsDropped<A>(parse: string -> Option<A>, cfg: Config, d: Daemon<A>) returns (at: seq<nat>)
    requires forall i :: 0 <= i < |cfg.seeds| ==> ParseSeed(parse, cfg.seeds[i]).Ok?
    requires !cfg.seedsOnly && d.starts && d.browses && (cfg.localPeer.None? || cfg.localUrl.None? || d.registers)
    ensures var s, n := Stream(parse, cfg, d), |cfg.seeds|;
      && n <= |s| && (forall i :: 0 <= i < n ==> ParseSeed(parse, cfg.seeds[i]) == Ok(s[i]))
      && ComesFrom(cfg.localPeer, d.events, s[n..], at)
  {
    at := FoundExactly(cfg.localPeer, d.events);
    var good := GoodSeeds(parse, cfg.seeds);
    assert |good| == |cfg.seeds|;
    assert Stream(parse, cfg, d)[|good|..] == Found(cfg.localPeer, d.events);
    forall i | 0 <= i < |cfg.seeds| ensures ParseSeed(parse, cfg.seeds[i]) == Ok(good[i]) {
      GoodSeedAt(parse, cfg.seeds, i);
    }
  }

  /** The first seed that does not parse, or the number of seeds. */
  ghost predicate FirstBad<A>(parse: string -> Option<A>, seeds: seq<string>, k: nat) {
    && k <= |seeds| && (forall i :: 0 <= i < k ==> ParseSeed(parse, seeds[i]).Ok?)
    && (k < |seeds| ==> ParseSeed(parse, seeds[k]).Err?)
  }

  /** How the run ends, exactly. A bad seed is reported once the ones before it have been
      taken, and only the first one; mDNS failing is reported when it is wanted, all seeds
      are good and have been taken; otherwise the run ends without an error. */
  lemma EndingExactly<A>(parse: string -> Option<A>, cfg: Config, d: Daemon<A>, accepts: nat, bad: nat)
    requires FirstBad(parse, cfg.seeds, bad)
    ensures Ending(parse, cfg, d, accepts) ==
      if accepts < bad then None
      else if bad < |cfg.seeds| then Some(ParseSeed(parse, cfg.seeds[bad]).error)
      else if !cfg.seedsOnly && (!d.starts || !d.browses || (cfg.localPeer.Some? && cfg.localUrl.Some? && !d.registers))
      then Some(Mdns) else None
    ensures bad < |cfg.seeds| || cfg.seedsOnly ==> |Stream(parse, cfg, d)| == bad
  {
    BadIsNext(parse, cfg.seeds, bad);
  }

  lemma BadIsNext<A>(parse: string -> Option<A>, seeds: seq<string>, bad: nat)
    requires FirstBad(parse, seeds, bad)
    ensures |GoodSeeds(parse, seeds)| == bad
  {
    var n := |GoodSeeds(parse, seeds)|;
    if bad < n {
      GoodSeedAt(parse, seeds, bad);
    }
  }

  /** Why an entry does not parse, exactly, and that the entry is named. */
  lemma SeedErrors<A>(parse: string -> Option<A>, entry: string)
    ensures ParseSeed(parse, entry) == Err(BadSeed(entry, NoSeparator)) <==> '@' !in entry
    ensures forall hex, rest :: entry == hex + "@" + rest && '@' !in hex ==>
      && (Hex.FromHex(hex).Err? ==> ParseSeed(parse, entry) == Err(BadSeed(entry, BadPeer(Hex.FromHex(hex).error))))
      && (Hex.FromHex(hex).Ok? && ParseSeed(parse, entry).Err? ==> ParseSeed(parse, entry) == Err(BadSeed(entry, BadAddress)))
  {
    SplitOnceExact(entry, '@');
    forall hex, rest | entry == hex + "@" + rest && '@' !in hex ensures SplitOnce(entry, '@') == Some((hex, rest)) {
      SplitOnceFinds(hex, '@', rest);
    }
  }

  lemma {:induction false} GoodSeedAt<A>(parse: string -> Option<A>, seeds: seq<string>, i: nat)
    requires i < |GoodSeeds(parse, seeds)|
    ensures ParseSeed(parse, seeds[i]) == Ok(GoodSeeds(parse, seeds)[i]) && !GoodSeeds(parse, seeds)[i].viaMdns
  {
    if i > 0 {
      GoodSeedAt(parse, seeds[1..], i - 1);
    }
  }

  lemma {:induction false} FoundAt<A>(local: Option<PeerId>, events: seq<BrowseEvent<A>>, i: nat)
    requires i < |Found(local, events)|
    ensures Found(local, events)[i].viaMdns && Some(Found(local, events)[i].peer) != local
    decreases |events|
  {
    var rest := Found(local, events[1..]);
    if Found(local, events) == rest {
      FoundAt(local, events[1..], i);
    } else if i > 0 {
      FoundAt(local, events[1..], i - 1);
    }
  }
}
