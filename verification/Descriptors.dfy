/** The configuration-descriptor loop of `EnumerateDevice` (src/UsbDevices.cpp, lines 1112-1153;
    sections 9.6.3, 9.6.5 and 9.6.6 of the USB 2.0 specification). */
module Descriptors {
  import opened Kernel

  const BUFFER_SIZE := 1024
  const MAX_INTERFACES := 8
  const MAX_ENDPOINTS := 16
  const INTERFACE_TYPE := 4
  const ENDPOINT_TYPE := 5
  const INTERFACE_SIZE := 9
  const ENDPOINT_SIZE := 7

  type Bytes = seq<Byte>

  /** The device entry's descriptor arrays, and the loop's count of endpoints. */
  datatype Stored = Stored(count: nat, endpointCount: nat, interfaces: seq<Bytes>, endpoints: seq<seq<Bytes>>)

  predicate Sized(s: Stored) {
    && |s.interfaces| == MAX_INTERFACES && |s.endpoints| == MAX_INTERFACES
    && s.count <= MAX_INTERFACES && s.endpointCount <= MAX_ENDPOINTS
    && forall i :: 0 <= i < MAX_INTERFACES ==> |s.endpoints[i]| == MAX_ENDPOINTS
  }

  /** How the loop can go: to its end at index `i`, to an access outside an array, or to a
      descriptor of length 0, where it no longer advances. */
  datatype Parse = Parsed(i: nat, stored: Stored) | OutOfBounds | Stuck

  /** `device->Interfaces[MaxInterface++] = d` */
  function AddInterface(s: Stored, d: Bytes): (r: Stored)
    requires Sized(s) && s.count < MAX_INTERFACES
    ensures Sized(r)
  {
    s.(interfaces := s.interfaces[s.count := d], count := s.count + 1, endpointCount := 0)
  }

  /** `device->Endpoints[MaxInterface - 1][EndPtCnt++] = d` */
  function AddEndpoint(s: Stored, d: Bytes): (r: Stored)
    requires Sized(s) && 0 < s.count && s.endpointCount < MAX_ENDPOINTS
    ensures Sized(r)
  {
    var row := s.endpoints[s.count - 1][s.endpointCount := d];
    s.(endpoints := s.endpoints[s.count - 1 := row], endpointCount := s.endpointCount + 1)
  }

  /** Whether the switch stays inside the arrays, for a descriptor of type `kind` at index `i`. */
  predicate Fits(s: Stored, kind: Byte, i: nat) {
    && (kind == INTERFACE_TYPE ==> s.count < MAX_INTERFACES && i + INTERFACE_SIZE <= BUFFER_SIZE)
    && (kind == ENDPOINT_TYPE ==> 0 < s.count && s.endpointCount < MAX_ENDPOINTS && i + ENDPOINT_SIZE <= BUFFER_SIZE)
  }

  /** One pass of the switch over the bytes from a descriptor's start on. */
  function Store(s: Stored, from: Bytes): (r: Stored)
    requires Sized(s) && 2 <= |from|
    requires from[1] == INTERFACE_TYPE ==> s.count < MAX_INTERFACES && INTERFACE_SIZE <= |from|
    requires from[1] == ENDPOINT_TYPE ==> 0 < s.count && s.endpointCount < MAX_ENDPOINTS && ENDPOINT_SIZE <= |from|
    ensures Sized(r)
  {
    if from[1] == INTERFACE_TYPE then AddInterface(s, from[..INTERFACE_SIZE])
    else if from[1] == ENDPOINT_TYPE then AddEndpoint(s, from[..ENDPOINT_SIZE])
    else s
  }

  /** `wTotalLength - 1`, compared as an unsigned number. */
  function LastIndex(total: nat): nat { if total == 0 then 0xFFFF_FFFF else total - 1 }

  /** The loop as a function of where it stands. */
  function ParseFrom(buffer: Bytes, total: nat, i: nat, s: Stored): (r: Parse)
    requires |buffer| == BUFFER_SIZE && Sized(s)
    ensures r.Parsed? ==> Sized(r.stored)
    decreases LastIndex(total) - i
  {
    if i >= LastIndex(total) then Parsed(i, s)
    else if i + 1 >= BUFFER_SIZE || !Fits(s, buffer[i + 1], i) then OutOfBounds
    else if buffer[i] == 0 then Stuck
    else ParseFrom(buffer, total, i + buffer[i], Store(s, buffer[i..]))
  }

  lemma ParseStep(buffer: Bytes, total: nat, i: nat, s: Stored)
    requires |buffer| == BUFFER_SIZE && Sized(s)
    ensures ParseFrom(buffer, total, i, s) ==
      if i >= LastIndex(total) then Parsed(i, s)
      else if i + 1 >= BUFFER_SIZE || !Fits(s, buffer[i + 1], i) then OutOfBounds
      else if buffer[i] == 0 then Stuck
      else ParseFrom(buffer, total, i + buffer[i], Store(s, buffer[i..]))
  {
  }

  /** Sections 9.4, 9.6.5 and 9.6.6 of the USB 2.0 specification, and the sizes of the arrays. */
  lemma StandardNumbers(total: nat)
    ensures INTERFACE_TYPE == 4 && ENDPOINT_TYPE == 5 && INTERFACE_SIZE == 9 && ENDPOINT_SIZE == 7
    ensures MAX_INTERFACES == 8 && MAX_ENDPOINTS == 16 && BUFFER_SIZE == 1024
    ensures LastIndex(0) == 0xFFFF_FFFF && (0 < total ==> LastIndex(total) + 1 == total)
  {
  }

  /** Exactly descriptors of type 4 are stored as interfaces and of type 5 as endpoints. */
  lemma WhatIsStored(s: Stored, from: Bytes)
    requires Sized(s) && 9 <= |from| && 0 < s.count < 8 && s.endpointCount < 16
    ensures var r := Store(s, from);
      && (from[1] == 4 ==> r == Stored(s.count + 1, 0, s.interfaces[s.count := from[..9]], s.endpoints))
      && (from[1] == 5 ==>
            r == Stored(s.count, s.endpointCount + 1, s.interfaces,
                        s.endpoints[s.count - 1 := s.endpoints[s.count - 1][s.endpointCount := from[..7]]]))
      && (from[1] !in {4, 5} ==> r == s)
  {
  }

  class UsbDevice {
    var maxInterface: nat
    var interfaces: seq<Bytes>
    var endpoints: seq<seq<Bytes>>

    ghost predicate Valid()
      reads this
    {
      Sized(Stored(maxInterface, 0, interfaces, endpoints))
    }

    constructor ()
      ensures Valid() && maxInterface == 0
    {
      maxInterface := 0;
      interfaces := seq(MAX_INTERFACES, _ => []);
      endpoints := seq(MAX_INTERFACES, _ => seq(MAX_ENDPOINTS, _ => []));
    }

    method ParseConfiguration(buffer: Bytes, total: nat) returns (r: Parse)
      requires Valid() && |buffer| == BUFFER_SIZE
      modifies this
      ensures r == ParseFrom(buffer, total, 0, old(Stored(maxInterface, 0, interfaces, endpoints)))
      ensures r.Parsed? ==>
        && Valid()
        && r.stored == Stored(maxInterface, r.stored.endpointCount, interfaces, endpoints)
    {
      hide ParseFrom;
      var endpointCount := 0;
      var i := 0;
      ghost var start := Stored(maxInterface, 0, interfaces, endpoints);
      while i < LastIndex(total)
        invariant Sized(Stored(maxInterface, endpointCount, interfaces, endpoints))
        invariant ParseFrom(buffer, total, 0, start)
               == ParseFrom(buffer, total, i, Stored(maxInterface, endpointCount, interfaces, endpoints))
        decreases LastIndex(total) - i
      {
        ParseStep(buffer, total, i, Stored(maxInterface, endpointCount, interfaces, endpoints));
        if i + 1 >= BUFFER_SIZE {
          return OutOfBounds;
        }
        var kind := buffer[i + 1];
        if kind == INTERFACE_TYPE {
          if maxInterface >= MAX_INTERFACES || i + INTERFACE_SIZE > BUFFER_SIZE {
            return OutOfBounds;
          }
          interfaces := interfaces[maxInterface := buffer[i..i + INTERFACE_SIZE]];
          maxInterface := maxInterface + 1;
          endpointCount := 0;
          assert buffer[i..][..INTERFACE_SIZE] == buffer[i..i + INTERFACE_SIZE];
        } else if kind == ENDPOINT_TYPE {
          if maxInterface == 0 || endpointCount >= MAX_ENDPOINTS || i + ENDPOINT_SIZE > BUFFER_SIZE {
            return OutOfBounds;
          }
          var row := endpoints[maxInterface - 1][endpointCount := buffer[i..i + ENDPOINT_SIZE]];
          endpoints := endpoints[maxInterface - 1 := row];
          endpointCount := endpointCount + 1;
          assert buffer[i..][..ENDPOINT_SIZE] == buffer[i..i + ENDPOINT_SIZE];
        }
        if buffer[i] == 0 {
          return Stuck;
        }
        i := i + buffer[i];
      }
      ParseStep(buffer, total, i, Stored(maxInterface, endpointCount, interfaces, endpoints));
      r := Parsed(i, Stored(maxInterface, endpointCount, interfaces, endpoints));
    }
  }

  // What a device sends.

  /** A descriptor starts with its own length and its type. */
  predicate Descriptor(d: Bytes) {
    && 2 <= |d| && d[0] == |d|
    && (d[1] == INTERFACE_TYPE ==> INTERFACE_SIZE <= |d|)
    && (d[1] == ENDPOINT_TYPE ==> ENDPOINT_SIZE <= |d|)
  }

  /** An interface with what follows it: its endpoints, and descriptors of other kinds. */
  datatype Interface = Interface(descriptor: Bytes, body: seq<Bytes>)

  /** `head` is the configuration descriptor and whatever precedes the first interface. */
  datatype Configuration = Configuration(head: seq<Bytes>, interfaces: seq<Interface>)

  /** Descriptors none of which opens an interface. */
  predicate Plain(ds: seq<Bytes>) {
    forall i :: 0 <= i < |ds| ==> Descriptor(ds[i]) && ds[i][1] != INTERFACE_TYPE
  }

  /** Endpoint descriptors in order, cut to the size kept. */
  function Endpoints(body: seq<Bytes>): seq<Bytes>
    requires Plain(body)
  {
    if body == [] then [] else
      assert Descriptor(body[0]);
      (if body[0][1] == ENDPOINT_TYPE then [body[0][..ENDPOINT_SIZE]] else []) + Endpoints(body[1..])
  }

  predicate WellFormedInterface(x: Interface) {
    && Descriptor(x.descriptor) && x.descriptor[1] == INTERFACE_TYPE
    && Plain(x.body) && |Endpoints(x.body)| <= MAX_ENDPOINTS
  }

  predicate WellFormed(c: Configuration) {
    && Plain(c.head) && Endpoints(c.head) == []
    && |c.interfaces| <= MAX_INTERFACES
    && forall i :: 0 <= i < |c.interfaces| ==> WellFormedInterface(c.interfaces[i])
  }

  function Concat(ds: seq<Bytes>): Bytes {
    if ds == [] then [] else ds[0] + Concat(ds[1..])
  }

  function Flatten(xs: seq<Interface>): seq<Bytes> {
    if xs == [] then [] else [xs[0].descriptor] + xs[0].body + Flatten(xs[1..])
  }

  function Serialise(c: Configuration): Bytes {
    Concat(c.head + Flatten(c.interfaces))
  }

  /** The buffer from `i` up to the total length holds these descriptors. */
  ghost predicate Holds(buffer: Bytes, total: nat, i: nat, ds: seq<Bytes>) {
    i <= total <= |buffer| == BUFFER_SIZE && 0 < total && buffer[i..total] == Concat(ds)
  }

  /** The loop steps from one descriptor to the next. */
  lemma OneDescriptor(buffer: Bytes, total: nat, i: nat, s: Stored, ds: seq<Bytes>)
    requires Holds(buffer, total, i, ds) && ds != [] && Descriptor(ds[0]) && Sized(s)
    requires Fits(s, ds[0][1], i)
    ensures Holds(buffer, total, i + |ds[0]|, ds[1..])
    ensures ParseFrom(buffer, total, i, s) == ParseFrom(buffer, total, i + |ds[0]|, Store(s, ds[0]))
  {
    var d := ds[0];
    var here := buffer[i..total];
    assert here == d + Concat(ds[1..]);
    assert buffer[i..i + |d|] == here[..|d|] == d;
    assert buffer[i + |d|..total] == here[|d|..] == Concat(ds[1..]);
    assert buffer[i] == here[0] == |d| && buffer[i + 1] == here[1] == d[1];
    assert d[1] == INTERFACE_TYPE ==> buffer[i..][..INTERFACE_SIZE] == d[..INTERFACE_SIZE];
    assert d[1] == ENDPOINT_TYPE ==> buffer[i..][..ENDPOINT_SIZE] == d[..ENDPOINT_SIZE];
  }

  /** A row of endpoints with some of its places overwritten. */
  function Overwritten(row: seq<Bytes>, at: nat, with: seq<Bytes>): (r: seq<Bytes>)
    requires at + |with| <= |row|
    ensures |r| == |row|
  {
    row[..at] + with + row[at + |with|..]
  }

  /** The endpoints added to the row of the current interface. */
  function WithEndpoints(s: Stored, es: seq<Bytes>): (r: Stored)
    requires CanAdd(s, es)
    ensures Sized(r)
  {
    if es == [] then s else
      var m := s.count - 1;
      s.(endpoints := s.endpoints[m := Overwritten(s.endpoints[m], s.endpointCount, es)],
         endpointCount := s.endpointCount + |es|)
  }

  predicate CanAdd(s: Stored, es: seq<Bytes>) {
    Sized(s) && (es == [] || (0 < s.count && s.endpointCount + |es| <= MAX_ENDPOINTS))
  }

  lemma EndpointThenOthers(s: Stored, e: Bytes, es: seq<Bytes>)
    requires CanAdd(s, [e] + es)
    ensures CanAdd(AddEndpoint(s, e), es) && WithEndpoints(AddEndpoint(s, e), es) == WithEndpoints(s, [e] + es)
  {
    var m, k := s.count - 1, s.endpointCount;
    var row := s.endpoints[m];
    assert Overwritten(row, k, [e]) == row[k := e];
    assert Overwritten(row[k := e], k + 1, es) == Overwritten(row, k, [e] + es);
    if es == [] { assert [e] + es == [e]; }
  }

  /** One descriptor of a body, then the others. */
  lemma StoreThenOthers(s: Stored, body: seq<Bytes>, i: nat)
    requires body != [] && Plain(body) && CanAdd(s, Endpoints(body)) && i + |body[0]| <= BUFFER_SIZE
    ensures Descriptor(body[0]) && Fits(s, body[0][1], i)
    ensures var next := Store(s, body[0]); var es := Endpoints(body[1..]);
      CanAdd(next, es) && WithEndpoints(next, es) == WithEndpoints(s, Endpoints(body))
  {
    var d, es := body[0], Endpoints(body[1..]);
    assert Descriptor(d);
    if d[1] == ENDPOINT_TYPE {
      var e := d[..ENDPOINT_SIZE];
      assert Endpoints(body) == [e] + es;
      EndpointThenOthers(s, e, es);
    } else {
      assert Endpoints(body) == es;
    }
  }

  /** Descriptors that are not interfaces: the endpoints among them go to the current row. */
  lemma {:induction false} ParseBody(buffer: Bytes, total: nat, i: nat, s: Stored, body: seq<Bytes>, rest: seq<Bytes>)
    requires Holds(buffer, total, i, body + rest) && Plain(body) && CanAdd(s, Endpoints(body))
    ensures Holds(buffer, total, i + |Concat(body)|, rest)
    ensures ParseFrom(buffer, total, i, s)
         == ParseFrom(buffer, total, i + |Concat(body)|, WithEndpoints(s, Endpoints(body)))
    decreases |body|
  {
    hide ParseFrom, Store, Fits, WithEndpoints;
    if body == [] {
      assert body + rest == rest;
      NothingAdded(s);
    } else {
      var ds := body + rest;
      assert ds[1..] == body[1..] + rest;
      FirstInside(buffer, total, i, ds);
      StoreThenOthers(s, body, i);
      OneDescriptor(buffer, total, i, s, ds);
      ParseBody(buffer, total, i + |ds[0]|, Store(s, ds[0]), body[1..], rest);
    }
  }

  lemma NothingAdded(s: Stored)
    requires Sized(s)
    ensures WithEndpoints(s, []) == s
  {
  }

  lemma FirstInside(buffer: Bytes, total: nat, i: nat, ds: seq<Bytes>)
    requires Holds(buffer, total, i, ds) && ds != []
    ensures i + |ds[0]| <= BUFFER_SIZE
  {
    assert |Concat(ds)| >= |ds[0]|;
  }

  /** Interface `x` and its endpoints fill place `j`. */
  predicate StoredAt(s: Stored, x: Interface, r: Stored, j: nat)
    requires Sized(s) && Sized(r) && j < MAX_INTERFACES && WellFormedInterface(x)
  {
    && r.interfaces[j] == x.descriptor[..INTERFACE_SIZE]
    && r.endpoints[j] == Overwritten(s.endpoints[j], 0, Endpoints(x.body))
  }

  lemma OneInterface(s: Stored, x: Interface, i: nat)
    requires Sized(s) && s.count < MAX_INTERFACES && WellFormedInterface(x) && i + |x.descriptor| <= BUFFER_SIZE
    ensures Descriptor(x.descriptor) && Fits(s, x.descriptor[1], i) && Plain(x.body)
    ensures var one := Store(s, x.descriptor);
      && CanAdd(one, Endpoints(x.body))
      && WithEndpoints(one, Endpoints(x.body)).count == s.count + 1
      && StoredFrom(s, [x], WithEndpoints(one, Endpoints(x.body)))
  {
    assert Overwritten(s.endpoints[s.count], 0, []) == s.endpoints[s.count];
  }

  lemma StoredFromOn(s: Stored, t: Stored, xs: seq<Interface>, r: Stored)
    requires Sized(s) && Sized(t) && Sized(r) && xs != []
    requires StoredFrom(s, [xs[0]], t) && StoredFrom(t, xs[1..], r)
    ensures StoredFrom(s, xs, r)
  {
    hide Overwritten, WellFormedInterface;
    var first, others := [xs[0]], xs[1..];
    forall k | 0 <= k < |xs| ensures WellFormedInterface(xs[k]) && StoredAt(s, xs[k], r, s.count + k) {
      if k == 0 {
        assert StoredAt(s, first[0], t, s.count + 0);
      } else {
        assert StoredAt(t, others[k - 1], r, t.count + (k - 1));
      }
    }
  }

  /** Interfaces `xs` stored from place `s.count` on, each with exactly its endpoints; everything
      before and after as it was. */
  ghost predicate StoredFrom(s: Stored, xs: seq<Interface>, r: Stored)
    requires Sized(s) && Sized(r)
  {
    && r.count == s.count + |xs|
    && (forall k :: 0 <= k < |xs| ==> WellFormedInterface(xs[k]) && StoredAt(s, xs[k], r, s.count + k))
    && (forall j :: 0 <= j < MAX_INTERFACES && !(s.count <= j < s.count + |xs|) ==>
          r.interfaces[j] == s.interfaces[j] && r.endpoints[j] == s.endpoints[j])
  }

  lemma ParseEnds(buffer: Bytes, total: nat, s: Stored)
    requires |buffer| == BUFFER_SIZE && Sized(s) && 0 < total
    ensures ParseFrom(buffer, total, total, s) == Parsed(total, s) && StoredFrom(s, [], s)
  {
  }

  lemma {:induction false} ParseInterfaces(buffer: Bytes, total: nat, i: nat, s: Stored, xs: seq<Interface>)
    requires Holds(buffer, total, i, Flatten(xs)) && Sized(s) && s.count + |xs| <= MAX_INTERFACES
    requires forall k :: 0 <= k < |xs| ==> WellFormedInterface(xs[k])
    ensures var r := ParseFrom(buffer, total, i, s);
      r.Parsed? && r.i == total && StoredFrom(s, xs, r.stored)
    decreases |xs|
  {
    hide ParseFrom, WithEndpoints, Store, Fits, StoredFrom, WellFormedInterface, CanAdd, Descriptor, Endpoints, Plain;
    if xs != [] {
      var x, ds := xs[0], Flatten(xs);
      assert ds[1..] == x.body + Flatten(xs[1..]);
      FirstInside(buffer, total, i, ds);
      OneInterface(s, x, i);
      OneDescriptor(buffer, total, i, s, ds);
      var one := Store(s, ds[0]);
      ParseBody(buffer, total, i + |ds[0]|, one, x.body, Flatten(xs[1..]));
      var two := WithEndpoints(one, Endpoints(x.body));
      ParseInterfaces(buffer, total, i + |ds[0]| + |Concat(x.body)|, two, xs[1..]);
      StoredFromOn(s, two, xs, ParseFrom(buffer, total, i, s).stored);
    } else {
      ParseEnds(buffer, total, s);
    }
  }

  /** Parsing undoes serialising: the loop ends exactly at the total length, each interface is
      stored in order with exactly its own endpoints, and no other place is touched. */
  lemma ParseUndoesSerialise(c: Configuration, buffer: Bytes, s: Stored)
    requires WellFormed(c) && |buffer| == BUFFER_SIZE && Serialise(c) <= buffer && 0 < |Serialise(c)|
    requires Sized(s) && s.count + |c.interfaces| <= MAX_INTERFACES
    ensures var r := ParseFrom(buffer, |Serialise(c)|, 0, s);
      r.Parsed? && r.i == |Serialise(c)| && StoredFrom(s, c.interfaces, r.stored)
  {
    hide StoredFrom, ParseFrom, WellFormedInterface;
    var total := |Serialise(c)|;
    assert buffer[0..total] == Serialise(c);
    ParseBody(buffer, total, 0, s, c.head, Flatten(c.interfaces));
    NothingAdded(s);
    ParseInterfaces(buffer, total, |Concat(c.head)|, s, c.interfaces);
  }
}
