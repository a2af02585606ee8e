/** The mesh's topic names, and which subscriptions they reach. */
module Topics {
  import opened Common
  import Hex
  import Files

  // Written segment by segment.
  const ROOT: string := "furcate" + "/" + "mesh"
  const TRANSFER_ROOT: string := ROOT + "/" + "transfer"
  const ANY_PEER: string := ROOT + "/" + "*"

  const SUB_ALL_HEARTBEATS: string := ANY_PEER + "/" + "heartbeat"
  const SUB_ALL_MODELS: string := ANY_PEER + "/" + "model" + "/" + "**"
  const SUB_ALL_AGENT_STATE: string := ANY_PEER + "/" + "agent" + "/" + "**"

  /** What a key is built from: the five event kinds, and the two request keys. */
  datatype Topic =
    | Heartbeat(peer: PeerId)
    | ModelAnnounce(peer: PeerId, name: string)
    | WorkOffer(peer: PeerId)
    | WorkResult(peer: PeerId)
    | AgentState(peer: PeerId, name: string)
    | OfferedRequest(peer: PeerId, name: string)
    | AnsweredRequest(peer: PeerId, name: string)

  function Tail(t: Topic): string {
    match t
    case Heartbeat(_) => "heartbeat"
    case ModelAnnounce(_, name) => "model" + "/" + name
    case WorkOffer(_) => "work-offer"
    case WorkResult(_) => "work-result"
    case AgentState(_, name) => "agent" + "/" + name
    case OfferedRequest(_, id) => "work-offer" + "/" + id
    case AnsweredRequest(_, id) => "work-result" + "/" + id
  }

  /** `key_for`, `key_work_offer` and `key_work_result`. */
  function KeyFor(t: Topic): string {
    ROOT + "/" + Hex.Encode(t.peer) + "/" + Tail(t)
  }

  /** Where a transfer is asked for. */
  function TransferSelector(digest: string): string {
    TRANSFER_ROOT + "/" + digest
  }

  /** The keys, written out. */
  lemma KeysSpelledOut(peer: PeerId, name: string)
    ensures KeyFor(Heartbeat(peer)) == "furcate/mesh/" + Hex.Encode(peer) + "/heartbeat"
    ensures KeyFor(ModelAnnounce(peer, name)) == "furcate/mesh/" + Hex.Encode(peer) + "/model/" + name
    ensures KeyFor(WorkOffer(peer)) == "furcate/mesh/" + Hex.Encode(peer) + "/work-offer"
    ensures KeyFor(WorkResult(peer)) == "furcate/mesh/" + Hex.Encode(peer) + "/work-result"
    ensures KeyFor(AgentState(peer, name)) == "furcate/mesh/" + Hex.Encode(peer) + "/agent/" + name
    ensures KeyFor(OfferedRequest(peer, name)) == "furcate/mesh/" + Hex.Encode(peer) + "/work-offer/" + name
    ensures KeyFor(AnsweredRequest(peer, name)) == "furcate/mesh/" + Hex.Encode(peer) + "/work-result/" + name
  {
    var hex := Hex.Encode(peer);
    Written(hex, "heartbeat", "/heartbeat", name);
    Written(hex, "model", "/model", name);
    Written(hex, "work-offer", "/work-offer", name);
    Written(hex, "work-result", "/work-result", name);
    Written(hex, "agent", "/agent", name);
    assert "/model" + "/" == "/model/" && "/agent" + "/" == "/agent/";
    assert "/work-offer" + "/" == "/work-offer/" && "/work-result" + "/" == "/work-result/";
  }

  lemma Written(hex: string, kind: string, tail: string, name: string)
    requires tail == "/" + kind
    ensures ROOT + "/" + hex + "/" + kind == "furcate/mesh/" + hex + tail
    ensures ROOT + "/" + hex + "/" + (kind + "/" + name) == "furcate/mesh/" + hex + (tail + "/") + name
  {
    assert ROOT + "/" == "furcate/mesh/";
  }

  /** The transfer selector and the three subscriptions, written out. */
  lemma SelectorsSpelledOut(digest: string)
    ensures TransferSelector(digest) == "furcate/mesh/transfer/" + digest
    ensures SUB_ALL_HEARTBEATS == "furcate/mesh/*/heartbeat"
    ensures SUB_ALL_MODELS == "furcate/mesh/*/model/**"
    ensures SUB_ALL_AGENT_STATE == "furcate/mesh/*/agent/**"
  {
    assert TRANSFER_ROOT + "/" == "furcate/mesh/transfer/";
  }

  /** Keys determine their topic: kind, peer and name. */
  lemma KeysAreInjective(a: Topic, b: Topic)
    requires KeyFor(a) == KeyFor(b)
    ensures a == b
  {
    SameParts(ROOT + "/", Hex.Encode(a.peer), Tail(a), Hex.Encode(b.peer), Tail(b));
    Hex.EncodeIsInjective(a.peer, b.peer);
    TailsAreInjective(a, b);
  }

  lemma SameParts(stem: string, x: string, u: string, y: string, v: string)
    requires |x| == |y| && stem + x + "/" + u == stem + y + "/" + v
    ensures x == y && u == v
  {
    var s, k := stem + x + "/" + u, |stem| + |x|;
    assert s[|stem|..k] == x && s[|stem|..k] == y;
    assert s[k + 1..] == u && s[k + 1..] == v;
  }

  lemma TailsAreInjective(a: Topic, b: Topic)
    requires Tail(a) == Tail(b) && a.peer == b.peer
    ensures a == b
  {
    var s := Tail(a);
    if a.ModelAnnounce? && b.ModelAnnounce? {
      assert s[6..] == a.name && s[6..] == b.name;
    } else if a.AgentState? && b.AgentState? {
      assert s[6..] == a.name && s[6..] == b.name;
    } else if a.OfferedRequest? && b.OfferedRequest? {
      assert s[11..] == a.name && s[11..] == b.name;
    } else if a.AnsweredRequest? && b.AnsweredRequest? {
      assert s[12..] == a.name && s[12..] == b.name;
    } else {
      assert Marks(Tail(a), a) && Marks(Tail(b), b);
    }
  }

  /** What tells the kinds apart: a character or a length. */
  predicate Marks(s: string, t: Topic) {
    match t
    case Heartbeat(_) => |s| >= 6 && s[0] == 'h'
    case ModelAnnounce(_, _) => |s| >= 6 && s[0] == 'm'
    case AgentState(_, _) => |s| >= 6 && s[0] == 'a'
    case WorkOffer(_) => |s| == 10 && s[0] == 'w' && s[5] == 'o'
    case OfferedRequest(_, _) => |s| > 10 && s[0] == 'w' && s[5] == 'o'
    case WorkResult(_) => |s| == 11 && s[0] == 'w' && s[5] == 'r'
    case AnsweredRequest(_, _) => |s| > 11 && s[0] == 'w' && s[5] == 'r'
  }

  // ----- Segments and key expressions -----

  /** Put a character in front of the first segment. */
  function Prepend(c: char, segments: seq<string>): seq<string>
    requires segments != []
  {
    [[c] + segments[0]] + segments[1..]
  }

  /** Split at every slash. */
  function Segments(s: string): (r: seq<string>)
    ensures r != []
  {
    if s == "" then [""]
    else if s[0] == '/' then [""] + Segments(s[1..])
    else Prepend(s[0], Segments(s[1..]))
  }

  lemma {:induction false} OneSegment(s: string)
    requires '/' !in s
    ensures Segments(s) == [s]
  {
    if s != "" {
      assert s[0] in s && forall c :: c in s[1..] ==> c in s;
      OneSegment(s[1..]);
      assert [s[0]] + s[1..] == s;
    }
  }

  lemma PrependJoins(c: char, a: seq<string>, b: seq<string>)
    requires a != []
    ensures Prepend(c, a + b) == Prepend(c, a) + b
  {
    assert (a + b)[1..] == a[1..] + b;
  }

  lemma Grouping(a: seq<string>, b: seq<string>, c: seq<string>)
    ensures a + (b + c) == a + b + c
  {
  }

  lemma {:induction false} SegmentsJoin(a: string, b: string)
    ensures Segments(a + "/" + b) == Segments(a) + Segments(b)
  {
    if a == "" {
      assert a + "/" + b == "/" + b;
      assert ("/" + b)[1..] == b;
    } else {
      var s := a + "/" + b;
      SegmentsJoin(a[1..], b);
      assert s[0] == a[0] && s[1..] == a[1..] + "/" + b;
      if a[0] == '/' {
        Grouping([""], Segments(a[1..]), Segments(b));
      } else {
        PrependJoins(a[0], Segments(a[1..]), Segments(b));
      }
    }
  }

  /** Whether two key expressions have a key in common. In both, `*` stands for one
      segment and `**` for any number of them. */
  predicate Intersects(a: seq<string>, b: seq<string>)
    decreases |a| + |b|
  {
    if a != [] && a[0] == "**" then
      Intersects(a[1..], b) || (b != [] && Intersects(a, b[1..]))
    else if b != [] && b[0] == "**" then
      Intersects(a, b[1..]) || (a != [] && Intersects(a[1..], b))
    else if a == [] || b == [] then
      a == [] && b == []
    else
      (a[0] == "*" || b[0] == "*" || a[0] == b[0]) && Intersects(a[1..], b[1..])
  }

  /** Whether a key expression stands for a key. */
  predicate Matches(pattern: seq<string>, key: seq<string>)
    decreases |pattern| + |key|
  {
    if pattern == [] then key == []
    else if pattern[0] == "**" then
      Matches(pattern[1..], key) || (key != [] && Matches(pattern, key[1..]))
    else key != [] && (pattern[0] == "*" || pattern[0] == key[0]) && Matches(pattern[1..], key[1..])
  }

  predicate Plain(key: seq<string>) {
    "*" !in key && "**" !in key
  }

  /** Two key expressions intersect if and only if both stand for some plain key. */
  lemma IntersectsMeans(a: seq<string>, b: seq<string>)
    ensures Intersects(a, b) <==> exists key :: Plain(key) && Matches(a, key) && Matches(b, key)
  {
    if Intersects(a, b) {
      var key := CommonKey(a, b);
    }
    forall key | Matches(a, key) && Matches(b, key) ensures Intersects(a, b) {
      SharedKey(a, b, key);
    }
  }

  lemma {:induction false} CommonKey(a: seq<string>, b: seq<string>) returns (key: seq<string>)
    requires Intersects(a, b)
    ensures Plain(key) && Matches(a, key) && Matches(b, key)
    decreases |a| + |b|
  {
    if a != [] && a[0] == "**" {
      if Intersects(a[1..], b) {
        key := CommonKey(a[1..], b);
      } else {
        key := CommonKey(a, b[1..]);
        key := Under(a, b, key);
      }
    } else if b != [] && b[0] == "**" {
      if Intersects(a, b[1..]) {
        key := CommonKey(a, b[1..]);
      } else {
        key := CommonKey(a[1..], b);
        key := Under(b, a, key);
      }
    } else if a == [] || b == [] {
      key := [];
    } else {
      var rest := CommonKey(a[1..], b[1..]);
      key := [Instance(if a[0] == "*" then b[0] else a[0])] + rest;
      assert key[1..] == rest;
    }
  }

  /** Some plain segment that `segment` stands for. */
  function Instance(segment: string): string {
    if segment == "*" then "x" else segment
  }

  /** While `stars` absorbs it, one more segment of `other` is matched. */
  lemma {:induction false} Under(stars: seq<string>, other: seq<string>, rest: seq<string>) returns (key: seq<string>)
    requires stars != [] && stars[0] == "**" && other != []
    requires Plain(rest) && Matches(stars, rest) && Matches(other[1..], rest)
    ensures Plain(key) && Matches(stars, key) && Matches(other, key)
  {
    if other[0] == "**" {
      return rest;
    }
    key := [Instance(other[0])] + rest;
    assert key[1..] == rest;
  }

  lemma {:induction false} SharedKey(a: seq<string>, b: seq<string>, key: seq<string>)
    requires Matches(a, key) && Matches(b, key)
    ensures Intersects(a, b)
    decreases |a| + |b| + |key|
  {
    if a != [] && a[0] == "**" && Matches(a[1..], key) {
      SharedKey(a[1..], b, key);
    } else if b != [] && b[0] == "**" && Matches(b[1..], key) {
      SharedKey(a, b[1..], key);
    } else if key != [] {
      SharedKey(if a[0] == "**" then a else a[1..], if b[0] == "**" then b else b[1..], key[1..]);
    }
  }

  /** What is published under a key expression is delivered to the subscriptions that
      intersect it. */
  predicate Reaches(subscription: string, key: string) {
    Intersects(Segments(subscription), Segments(key))
  }

  lemma {:induction false} StarsMatchAll(key: seq<string>)
    ensures Intersects(["**"], key)
    decreases |key|
  {
    assert ["**"][1..] == [];
    if key != [] {
      StarsMatchAll(key[1..]);
    }
  }

  /** A literal segment on either side. */
  lemma FirstSegment(x: string, a: seq<string>, y: string, b: seq<string>)
    requires x != "**" && y != "**"
    ensures Intersects([x] + a, [y] + b) <==> (x == "*" || y == "*" || x == y) && Intersects(a, b)
  {
    assert ([x] + a)[1..] == a && ([y] + b)[1..] == b;
  }

  /** Below the root and one peer segment, only the rest decides. */
  lemma BelowPeer(peer: string, a: seq<string>, b: seq<string>)
    requires peer != "**"
    ensures Intersects(["furcate", "mesh", "*"] + a, ["furcate", "mesh", peer] + b) <==> Intersects(a, b)
  {
    FirstSegment("*", a, peer, b);
    FirstSegment("mesh", ["*"] + a, "mesh", [peer] + b);
    FirstSegment("furcate", ["mesh"] + (["*"] + a), "furcate", ["mesh"] + ([peer] + b));
    assert ["furcate"] + (["mesh"] + (["*"] + a)) == ["furcate", "mesh", "*"] + a;
    assert ["furcate"] + (["mesh"] + ([peer] + b)) == ["furcate", "mesh", peer] + b;
  }

  lemma {:induction false} HexHasNoSlash(b: Bytes)
    ensures '/' !in Hex.Encode(b)
  {
    if b != [] {
      HexHasNoSlash(b[1..]);
    }
  }

  lemma ThreeSegments(a: string, b: string, c: string)
    requires '/' !in a && '/' !in b && '/' !in c
    ensures Segments(a + "/" + b + "/" + c) == [a, b, c]
  {
    OneSegment(a);
    OneSegment(b);
    OneSegment(c);
    SegmentsJoin(a, b);
    SegmentsJoin(a + "/" + b, c);
    assert [a] + [b] + [c] == [a, b, c];
  }

  lemma OneMoreSegment(stem: string, first: seq<string>, d: string, rest: string)
    requires Segments(stem) == first && '/' !in d
    ensures Segments(stem + "/" + d) == first + [d]
    ensures Segments(stem + "/" + d + "/" + rest) == first + ([d] + Segments(rest))
  {
    OneSegment(d);
    SegmentsJoin(stem, d);
    SegmentsJoin(stem + "/" + d, rest);
    Grouping(first, [d], Segments(rest));
  }

  /** The segments of a path of four, with or without more below it. */
  lemma FourSegments(a: string, b: string, c: string, d: string, rest: string)
    requires '/' !in a && '/' !in b && '/' !in c && '/' !in d
    ensures Segments(a + "/" + b + "/" + c + "/" + d) == [a, b, c] + [d]
    ensures Segments(a + "/" + b + "/" + c + "/" + d + "/" + rest) == [a, b, c] + ([d] + Segments(rest))
  {
    ThreeSegments(a, b, c);
    OneMoreSegment(a + "/" + b + "/" + c, [a, b, c], d, rest);
  }

  function Kind(t: Topic): string {
    match t
    case Heartbeat(_) => "heartbeat"
    case ModelAnnounce(_, _) => "model"
    case WorkOffer(_) => "work-offer"
    case WorkResult(_) => "work-result"
    case AgentState(_, _) => "agent"
    case OfferedRequest(_, _) => "work-offer"
    case AnsweredRequest(_, _) => "work-result"
  }

  predicate Named(t: Topic) {
    t.ModelAnnounce? || t.AgentState? || t.OfferedRequest? || t.AnsweredRequest?
  }

  lemma Regroup(a: string, b: string, c: string)
    ensures a + (b + "/" + c) == a + b + "/" + c
  {
  }

  function NameSegments(t: Topic): seq<string> {
    if Named(t) then Segments(t.name) else []
  }

  /** What follows the peer in a key. */
  function BelowKey(t: Topic): seq<string> {
    [Kind(t)] + NameSegments(t)
  }

  lemma KeySegments(t: Topic)
    ensures Segments(KeyFor(t)) == ["furcate", "mesh", Hex.Encode(t.peer)] + BelowKey(t)
  {
    var hex, kind := Hex.Encode(t.peer), Kind(t);
    HexHasNoSlash(t.peer);
    FourSegments("furcate", "mesh", hex, kind, if Named(t) then t.name else "");
    if Named(t) {
      Regroup(ROOT + "/" + hex + "/", kind, t.name);
    }
    assert [kind] + [] == [kind];
  }

  lemma SubscriptionSegments(kind: string)
    requires '/' !in kind
    ensures Segments(ANY_PEER + "/" + kind) == ["furcate", "mesh", "*"] + [kind]
    ensures Segments(ANY_PEER + "/" + kind + "/" + "**") == ["furcate", "mesh", "*"] + [kind, "**"]
  {
    FourSegments("furcate", "mesh", "*", kind, "**");
    OneSegment("**");
    assert [kind] + ["**"] == [kind, "**"];
  }

  /** A wildcard of one kind reaches a key exactly when what follows the key's peer
      segment can name that kind. */
  lemma SubscriptionReaches(kind: string, key: string, peer: string, rest: seq<string>)
    requires '/' !in kind && peer != "**" && Segments(key) == ["furcate", "mesh", peer] + rest
    ensures Reaches(ANY_PEER + "/" + kind, key) <==> Intersects([kind], rest)
    ensures Reaches(ANY_PEER + "/" + kind + "/" + "**", key) <==> Intersects([kind, "**"], rest)
  {
    SubscriptionSegments(kind);
    BelowPeer(peer, [kind], rest);
    BelowPeer(peer, [kind, "**"], rest);
  }

  /** Between literal kinds. */
  lemma KindsMeet(kind: string, other: string, name: seq<string>)
    requires Literal(kind) && Literal(other)
    ensures Intersects([kind, "**"], [other] + name) <==> kind == other
    ensures Intersects([kind], [other] + name) ==> kind == other
    ensures kind == other && name == [] ==> Intersects([kind], [other] + name)
  {
    FirstSegment(kind, [], other, name);
    FirstSegment(kind, ["**"], other, name);
    StarsMatchAll(name);
    assert [kind] + [] == [kind] && [kind] + ["**"] == [kind, "**"];
  }

  predicate Literal(segment: string) {
    '*' !in segment
  }

  lemma HexIsNotStars(peer: PeerId)
    ensures Hex.Encode(peer) != "**"
  {
    assert |Hex.Encode(peer)| == 64;
  }

  lemma KindIsLiteral(t: Topic)
    ensures Literal(Kind(t))
  {
  }

  lemma KindReaches(kind: string, t: Topic)
    requires '/' !in kind && Literal(kind)
    ensures Reaches(ANY_PEER + "/" + kind + "/" + "**", KeyFor(t)) <==> Kind(t) == kind
    ensures Reaches(ANY_PEER + "/" + kind, KeyFor(t)) ==> Kind(t) == kind
    ensures Kind(t) == kind && !Named(t) ==> Reaches(ANY_PEER + "/" + kind, KeyFor(t))
  {
    KeySegments(t);
    HexIsNotStars(t.peer);
    SubscriptionReaches(kind, KeyFor(t), Hex.Encode(t.peer), BelowKey(t));
    KindIsLiteral(t);
    KindsMeet(kind, Kind(t), NameSegments(t));
  }

  /** Topic separation: each wildcard reaches exactly the events of its kind, from
      every peer and under every name, however many segments the name has and even
      when it holds wildcards of its own. */
  lemma TopicsAreSeparate(t: Topic)
    ensures Reaches(SUB_ALL_HEARTBEATS, KeyFor(t)) <==> t.Heartbeat?
    ensures Reaches(SUB_ALL_MODELS, KeyFor(t)) <==> t.ModelAnnounce?
    ensures Reaches(SUB_ALL_AGENT_STATE, KeyFor(t)) <==> t.AgentState?
  {
    KindReaches("heartbeat", t);
    KindReaches("model", t);
    KindReaches("agent", t);
  }

  lemma NoKeyUnderTransfer(t: Topic)
    ensures !(TRANSFER_ROOT <= KeyFor(t))
  {
    var hex := Hex.Encode(t.peer);
    assert KeyFor(t)[|ROOT| + 1] == hex[0] == Hex.Digit(t.peer[0] / 16);
    assert TRANSFER_ROOT[|ROOT| + 1] == 't';
  }

  /** A transfer selector reaches an event subscriber exactly when the digest, as a
      key expression, can name what the subscription asks for below a peer. */
  lemma TransferReaches(digest: string)
    ensures Reaches(SUB_ALL_HEARTBEATS, TransferSelector(digest)) <==> Intersects(["heartbeat"], Segments(digest))
    ensures Reaches(SUB_ALL_MODELS, TransferSelector(digest)) <==> Intersects(["model", "**"], Segments(digest))
    ensures Reaches(SUB_ALL_AGENT_STATE, TransferSelector(digest)) <==> Intersects(["agent", "**"], Segments(digest))
  {
    TransferSegments(digest);
    SubscriptionReaches("heartbeat", TransferSelector(digest), "transfer", Segments(digest));
    SubscriptionReaches("model", TransferSelector(digest), "transfer", Segments(digest));
    SubscriptionReaches("agent", TransferSelector(digest), "transfer", Segments(digest));
  }

  lemma TransferSegments(digest: string)
    ensures Segments(TransferSelector(digest)) == ["furcate", "mesh", "transfer"] + Segments(digest)
  {
    ThreeSegments("furcate", "mesh", "transfer");
    SegmentsJoin(TRANSFER_ROOT, digest);
  }

  /** Transfers and events never meet: no event key lies under the transfer prefix,
      and the selector of a digest reaches no event subscriber. */
  lemma TransferIsSeparate(t: Topic, digest: string)
    requires Files.IsDigest(digest)
    ensures !(TRANSFER_ROOT <= KeyFor(t))
    ensures !Reaches(SUB_ALL_HEARTBEATS, TransferSelector(digest))
    ensures !Reaches(SUB_ALL_MODELS, TransferSelector(digest))
    ensures !Reaches(SUB_ALL_AGENT_STATE, TransferSelector(digest))
  {
    NoKeyUnderTransfer(t);
    TransferReaches(digest);
    OneSegment(digest);
    KindsMeet("heartbeat", digest, []);
    KindsMeet("model", digest, []);
    KindsMeet("agent", digest, []);
    assert [digest] + [] == [digest];
  }
}
