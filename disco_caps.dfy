/**
 * The entity capabilities cache of package disco (disco/caps.go,
 * `CapsHandler.HandlePresence` and `Caps`).
 *
 * A presence stanza may carry a <c xmlns='http://jabber.org/protocol/caps'/>
 * element. The handler takes the first such element, forms the key
 * node + "#" + ver, and, when the key is not cached, asks the sender for its
 * service discovery information and stores the answer under that key.
 *
 * The lock is taken at disco/caps.go:64 and held from the cache lookup through
 * the discovery request to the store; the scan before it reads only the call's
 * own payload, so each call is one atomic step here. Decoding the XML and the discovery request are inputs: the
 * payload lists each child element with the outcome decoding it would have,
 * and `fetched` is what the discovery request would return.
 */
module DiscoCaps {
  import opened ByteOrder
  import opened Results
  import DiscoHash
  import Base64

  /** The `Caps` element: the hash algorithm (a `crypto.Hash` number), node and ver. */
  datatype Caps = Caps(hash: nat, node: Bytes, ver: Bytes)

  /** The zero value `var c Caps` starts from. */
  const ZeroCaps: Caps := Caps(0, [], [])

  /** An XML name: namespace and local part. */
  datatype Name = Name(space: Bytes, local: Bytes)

  /** The namespace of disco/caps.go:89 (XEP-0115). */
  const NSCaps: Bytes := Ascii("http://jabber.org/protocol/caps")

  /** The element disco/caps.go:52 looks for. */
  const CapsName: Name := Name(NSCaps, Ascii("c"))

  /** One child element of the presence: its name, and what decoding it into a `Caps` yields. */
  datatype Child = Child(name: Name, decoded: Result<Caps>)

  /** The children the token iterator yields, then the error it stops on, if any.
      The iterator's error stays nil while `Next()` keeps returning true, so the
      `iter.Err()` check after the `break` of disco/caps.go:58-63 only sees the
      trailer when no caps element was found. */
  datatype Payload = Payload(children: seq<Child>, trailer: Option<Error>)

  /** What a call returns: nil, an error, or a run-time panic. */
  datatype Outcome = Done | Failed(error: Error) | Panic

  /** The outcome of a call, the cache after it, and the key discovery was asked for, if any. */
  datatype Step = Step(outcome: Outcome, cache: map<Bytes, DiscoHash.InfoValue>, queried: Option<Bytes>)

  const HashSign: Bytes := [35]  // "#"

  /** `c.Node + "#" + c.Ver` (disco/caps.go:66); the hash algorithm is not part of the key. */
  function CacheKey(c: Caps): Bytes
  {
    c.node + HashSign + c.ver
  }

  /** The position of the first caps element among the children, if there is one. */
  function FirstCaps(children: seq<Child>): (r: Option<nat>)
    ensures r.Some? ==> r.value < |children| && children[r.value].name == CapsName
    ensures r.Some? ==> forall j :: 0 <= j < r.value ==> children[j].name != CapsName
    ensures r.None? ==> forall j :: 0 <= j < |children| ==> children[j].name != CapsName
  {
    if children == [] then None
    else if children[0].name == CapsName then Some(0)
    else
      var rest := FirstCaps(children[1..]);
      if rest.None? then None else Some(rest.value + 1)
  }

  /** The loop of disco/caps.go:48-63: the `Caps` decoded from the first caps
      element, or the decoding error; without one, the iterator's error, or the
      zero `Caps` if the iteration ended cleanly. */
  function ScanCaps(p: Payload): (r: Result<Caps>)
    ensures FirstCaps(p.children).Some? ==> r == p.children[FirstCaps(p.children).value].decoded
    ensures FirstCaps(p.children).None? && p.trailer.Some? ==> r == Fail(p.trailer.value)
    ensures FirstCaps(p.children).None? && p.trailer.None? ==> r == Ok(ZeroCaps) && CacheKey(r.value) == HashSign
  {
    var i := FirstCaps(p.children);
    if i.Some? then p.children[i.value].decoded
    else if p.trailer.Some? then Fail(p.trailer.value)
    else Ok(ZeroCaps)
  }

  /** One call of `HandlePresence` from a cache, whether its map has been made
      (`made`), a payload and the outcome of the discovery request it would send. */
  function Handle(cache: map<Bytes, DiscoHash.InfoValue>, made: bool, p: Payload,
                  fetched: Result<DiscoHash.InfoValue>): (r: Step)
    // An error from the scan is returned before the cache is looked at or discovery asked.
    ensures ScanCaps(p).Fail? ==> r.outcome == Failed(ScanCaps(p).error) && r.queried.None?
    // Discovery is asked exactly on a miss, and for the key of the caps found.
    ensures r.queried.Some? <==> ScanCaps(p).Ok? && CacheKey(ScanCaps(p).value) !in cache
    ensures r.queried.Some? ==> r.queried.value == CacheKey(ScanCaps(p).value)
    // A hit returns nil and changes nothing.
    ensures ScanCaps(p).Ok? && CacheKey(ScanCaps(p).value) in cache ==> r.outcome == Done && r.cache == cache
    // A failed request is returned and stores nothing.
    ensures r.queried.Some? && fetched.Fail? ==> r.outcome == Failed(fetched.error) && r.cache == cache
    // A successful request stores its answer under the key, or panics if the map was never made.
    ensures r.queried.Some? && fetched.Ok? ==>
      if made then r.outcome == Done && r.cache == cache[r.queried.value := fetched.value]
      else r.outcome == Panic
    // Entries are never overwritten or removed, and at most one is added.
    ensures forall k :: k in cache ==> k in r.cache && r.cache[k] == cache[k]
    ensures forall k :: k in r.cache && k !in cache ==> r.queried == Some(k)
  {
    match ScanCaps(p)
    case Fail(err) => Step(Failed(err), cache, None)
    case Ok(c) =>
      var key := CacheKey(c);
      if key in cache then Step(Done, cache, None)
      else
        match fetched
        case Fail(err) => Step(Failed(err), cache, Some(key))
        case Ok(info) => if made then Step(Done, cache[key := info], Some(key)) else Step(Panic, cache, Some(key))
  }

  /** `CapsHandler`: the cache behind its mutex. `made` is false while the map is
      nil, as in the zero value: nothing in disco/caps.go makes the map. */
  class CapsHandler {
    var cache: map<Bytes, DiscoHash.InfoValue>
    var made: bool

    /** A nil map holds no entries. */
    predicate Valid()
      reads this
    {
      !made ==> cache == map[]
    }

    /** The zero value `CapsHandler{}`: a nil map. */
    constructor ()
      ensures Valid()
      ensures cache == map[] && !made
    {
      cache := map[];
      made := false;
    }

    /** A handler whose map has been made, holding `entries`. */
    constructor WithCache(entries: map<Bytes, DiscoHash.InfoValue>)
      ensures Valid()
      ensures cache == entries && made
    {
      cache := entries;
      made := true;
    }

    /** `h.HandlePresence(p, e)` (disco/caps.go:47-82). */
    method HandlePresence(p: Payload, fetched: Result<DiscoHash.InfoValue>) returns (outcome: Outcome, queried: Option<Bytes>)
      requires Valid()
      modifies this
      ensures Valid()
      ensures made == old(made)
      ensures Handle(old(cache), old(made), p, fetched) == Step(outcome, cache, queried)
    {
      var c := ZeroCaps;
      var i := 0;
      var found := false;
      while i < |p.children|
        invariant 0 <= i <= |p.children|
        invariant FirstCaps(p.children[..i]).None?
        invariant !found && c == ZeroCaps
        invariant cache == old(cache) && made == old(made)
      {
        var child := p.children[i];
        if child.name == CapsName {
          FirstCapsPrefix(p.children, i);
          match child.decoded
          case Fail(err) =>
            return Failed(err), None;
          case Ok(v) =>
            c := v;
            found := true;
            break;
        }
        FirstCapsExtend(p.children, i);
        i := i + 1;
      }
      if !found {
        assert p.children[..i] == p.children;
        if p.trailer.Some? {
          return Failed(p.trailer.value), None;
        }
      }
      var key := CacheKey(c);
      if key in cache {
        return Done, None;
      }
      queried := Some(key);
      match fetched
      case Fail(err) =>
        outcome := Failed(err);
      case Ok(info) =>
        if !made {
          // assignment to entry in nil map
          outcome := Panic;
        } else {
          cache := cache[key := info];
          outcome := Done;
        }
    }
  }

  lemma {:induction false} FirstCapsPrefix(children: seq<Child>, i: nat)
    requires i < |children| && children[i].name == CapsName
    requires FirstCaps(children[..i]).None?
    ensures FirstCaps(children) == Some(i)
  {
    if i > 0 {
      assert children[..i][0] == children[0];
      assert children[..i][1..] == children[1..][..i - 1];
      FirstCapsPrefix(children[1..], i - 1);
    }
  }

  lemma {:induction false} FirstCapsExtend(children: seq<Child>, i: nat)
    requires i < |children| && children[i].name != CapsName
    requires FirstCaps(children[..i]).None?
    ensures FirstCaps(children[..i + 1]).None?
  {
    var s := children[..i + 1];
    forall j | 0 <= j < |s| ensures s[j].name != CapsName {
      if j < i {
        assert s[j] == children[..i][j];
      }
    }
    FirstCapsNone(s);
  }

  lemma {:induction false} FirstCapsNone(children: seq<Child>)
    requires forall j :: 0 <= j < |children| ==> children[j].name != CapsName
    ensures FirstCaps(children).None?
  {
    if children != [] {
      FirstCapsNone(children[1..]);
    }
  }

  /** True if `s` has no "#" in it. */
  predicate HashFree(s: Bytes)
  {
    forall i :: 0 <= i < |s| ==> s[i] != 35
  }

  /** In a key whose ver has no "#", every "#" lies within the node or right after it. */
  lemma HashPosition(c: Caps, j: nat)
    requires HashFree(c.ver)
    requires j < |CacheKey(c)|
    ensures CacheKey(c)[j] == 35 ==> j <= |c.node|
  {
    if j > |c.node| {
      assert CacheKey(c)[j] == c.ver[j - |c.node| - 1];
    }
  }

  /** A ver without "#" can be read back from the end of the key, so distinct
      (node, ver) pairs give distinct keys. */
  lemma CacheKeyInjective(a: Caps, b: Caps)
    requires HashFree(a.ver) && HashFree(b.ver)
    requires CacheKey(a) == CacheKey(b)
    ensures a.node == b.node && a.ver == b.ver
  {
    var k := CacheKey(a);
    assert k[|a.node|] == 35 && CacheKey(b)[|b.node|] == 35;
    HashPosition(b, |a.node|);
    HashPosition(a, |b.node|);
    assert a.node == k[..|a.node|] == b.node;
    assert a.ver == k[|a.node| + 1..] == b.ver;
  }

  /** A Base64 encoding never holds "#". */
  lemma EncodeIsHashFree(s: Bytes)
    ensures HashFree(Base64.Encode(s))
  {
    Base64.EncodeAlphabet(s);
  }

  /** Keys of caps whose ver is a verification string (`Info.Hash`, an
      encoding) tell node and ver apart. */
  lemma VerificationKeysInjective(a: Caps, b: Caps, x: Bytes, y: Bytes)
    requires a.ver == Base64.Encode(x) && b.ver == Base64.Encode(y)
    requires CacheKey(a) == CacheKey(b)
    ensures a.node == b.node && a.ver == b.ver
  {
    EncodeIsHashFree(x);
    EncodeIsHashFree(y);
    CacheKeyInjective(a, b);
  }

  /** With "#" in the ver two different caps share a key, and the hash
      algorithm never takes part in it. */
  lemma CacheKeyCollisions(c: Caps, hash: nat)
    ensures CacheKey(Caps(0, [97], [98, 35, 99])) == CacheKey(Caps(0, [97, 35, 98], [99]))
    ensures CacheKey(c.(hash := hash)) == CacheKey(c)
  {
  }

  /** A presence without a caps element is not ignored: the key "#" is looked
      up, and asked for when it is not cached. */
  lemma NoCapsElementQueriesHash(cache: map<Bytes, DiscoHash.InfoValue>, made: bool, fetched: Result<DiscoHash.InfoValue>)
    requires HashSign !in cache
    ensures Handle(cache, made, Payload([], None), fetched).queried == Some(HashSign)
  {
  }

  /** After a call that returns nil with a caps element found, the same
      presence again is a hit: no discovery request, nothing changes. */
  lemma SecondCallHits(cache: map<Bytes, DiscoHash.InfoValue>, p: Payload,
                       first: Result<DiscoHash.InfoValue>, second: Result<DiscoHash.InfoValue>)
    requires Handle(cache, true, p, first).outcome == Done
    ensures var c := Handle(cache, true, p, first).cache;
      Handle(c, true, p, second) == Step(Done, c, None)
  {
    var r := Handle(cache, true, p, first);
    assert ScanCaps(p).Ok?;
    var key := CacheKey(ScanCaps(p).value);
    assert key in r.cache;
  }

  /** A failed discovery request leaves the cache as it was, so the next call
      with the same presence asks again. */
  lemma RetryAfterFailure(cache: map<Bytes, DiscoHash.InfoValue>, made: bool, p: Payload,
                          first: Result<DiscoHash.InfoValue>, second: Result<DiscoHash.InfoValue>)
    requires Handle(cache, made, p, first).queried.Some? && first.Fail?
    ensures var c := Handle(cache, made, p, first).cache;
      Handle(c, made, p, second).queried == Handle(cache, made, p, first).queried
  {
  }

  /** The zero-value handler panics on the first successful discovery
      request: even a presence without caps, answered, crashes it. */
  lemma ZeroHandlerPanics(info: DiscoHash.InfoValue)
    ensures Handle(map[], false, Payload([], None), Ok(info)).outcome == Panic
  {
  }

  /** A handler whose map has been made keeps every answer it receives: a
      presence answered once is served from the cache from then on. */
  lemma MadeHandlerCaches(cache: map<Bytes, DiscoHash.InfoValue>, p: Payload, info: DiscoHash.InfoValue)
    requires ScanCaps(p).Ok?
    ensures var r := Handle(cache, true, p, Ok(info));
      r.outcome == Done && CacheKey(ScanCaps(p).value) in r.cache
  {
  }
}
