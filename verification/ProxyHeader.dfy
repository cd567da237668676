/**
 Reception of a proxy request header in backend/browser_egress_proxy.py. However the
 network cuts the byte stream, the same header is found and the same ones are refused.
 */
module ProxyHeader {
  import opened Wrappers

  type Bytes = seq<bv8>

  const MAX_PROXY_HEADER_BYTES: nat := 65536
  const RECEIVE_SIZE: nat := 8192

  datatype Outcome =
    | Received(header: Bytes, buffered: Bytes)
    | TooLong | Disconnected
    | NetworkFailure                            // a time-out or another OSError

  /** s[..end] ends in CR LF CR LF. */
  predicate EndsAt(s: Bytes, end: nat) {
    4 <= end <= |s| && s[end - 4] == 13 && s[end - 3] == 10 && s[end - 2] == 13 && s[end - 1] == 10
  }

  /** The first marker in s ends at `end`. */
  predicate FirstEndsAt(s: Bytes, end: nat) {
    EndsAt(s, end) && forall e :: 4 <= e < end ==> !EndsAt(s, e)
  }

  predicate EndsWithin(s: Bytes, limit: nat) {
    exists end: nat :: end <= limit && FirstEndsAt(s, end)
  }

  /** bytearray.find of the marker, as the end of the marker. */
  method FindMarker(s: Bytes) returns (end: Option<nat>)
    ensures end.Some? ==> FirstEndsAt(s, end.value)
    ensures end.None? ==> forall e :: !EndsAt(s, e)
  {
    var e := 4;
    while e <= |s|
      invariant 4 <= e
      invariant forall d :: 4 <= d < e ==> !EndsAt(s, d)
    {
      if EndsAt(s, e) {
        return Some(e);
      }
      e := e + 1;
    }
    return None;
  }

  /** More bytes neither move nor hide the first marker. */
  lemma MarkerIsStable(s: Bytes, more: Bytes, end: nat)
    ensures end <= |s| ==> (EndsAt(s, end) <==> EndsAt(s + more, end))
    ensures FirstEndsAt(s, end) ==> FirstEndsAt(s + more, end)
  {
    assert forall i :: 0 <= i < |s| ==> (s + more)[i] == s[i];
    assert forall e: nat :: e <= |s| ==> (EndsAt(s, e) <==> EndsAt(s + more, e));
  }

  lemma NoMarkerYet(s: Bytes, more: Bytes)
    requires forall e :: !EndsAt(s, e)
    ensures forall e :: 4 <= e <= |s| ==> !EndsAt(s + more, e)
  {
    forall e | 4 <= e <= |s| ensures !EndsAt(s + more, e) {
      MarkerIsStable(s, more, e);
    }
  }

  /** A stream has at most one header. */
  lemma HeaderIsUnique(s: Bytes, a: nat, b: nat)
    requires FirstEndsAt(s, a) && FirstEndsAt(s, b)
    ensures a == b
  {
    assert !(a < b) && !(b < a);
  }

  class Client {
    var pending: Bytes          // what the client has yet to deliver before it closes
    ghost var broken: bool      // whether the connection has failed

    constructor (stream: Bytes)
      ensures pending == stream && !broken
    {
      pending, broken := stream, false;
    }

    /** socket.recv: any non-empty part of what is pending, up to `limit` bytes; empty only at the end. */
    method Recv(limit: nat) returns (chunk: Option<Bytes>)
      requires limit > 0
      modifies this
      ensures chunk.None? ==> pending == old(pending)
      ensures broken == (old(broken) || chunk.None?)
      ensures chunk.Some? ==> |chunk.value| <= limit && old(pending) == chunk.value + pending
      ensures chunk.Some? ==> (chunk.value == [] <==> old(pending) == [])
    {
      var fails: bool := *;
      if fails {
        broken := true;
        return None;
      }
      if pending == [] {
        return Some([]);
      }
      var size: int := *;
      size := if size < 1 then 1 else size;
      size := if size > limit then limit else size;
      size := if size > |pending| then |pending| else size;
      chunk := Some(pending[..size]);
      pending := pending[size..];
    }

    /** _receive_proxy_header */
    method ReceiveHeader() returns (outcome: Outcome)
      modifies this
      ensures broken == (old(broken) || outcome.NetworkFailure?)
      // The header is the shortest prefix that ends in the marker; nothing received is lost.
      ensures outcome.Received? ==>
        && FirstEndsAt(old(pending), |outcome.header|)
        && old(pending) == outcome.header + outcome.buffered + pending
        && |outcome.header| + |outcome.buffered| <= MAX_PROXY_HEADER_BYTES + 1
      ensures outcome.TooLong? ==> forall e :: 4 <= e <= MAX_PROXY_HEADER_BYTES ==> !EndsAt(old(pending), e)
      ensures outcome.Disconnected? ==> pending == [] && forall e :: !EndsAt(old(pending), e)
    {
      var received: Bytes := [];
      ghost var stream := pending;
      while true
        invariant stream == received + pending
        invariant |received| <= MAX_PROXY_HEADER_BYTES + 1 && broken == old(broken)
        decreases MAX_PROXY_HEADER_BYTES + 1 - |received|
      {
        var end := FindMarker(received);
        if end.Some? {
          MarkerIsStable(received, pending, end.value);
          assert received == received[..end.value] + received[end.value..];
          return Received(received[..end.value], received[end.value..]);
        }
        if |received| >= MAX_PROXY_HEADER_BYTES {
          NoMarkerYet(received, pending);
          return TooLong;
        }
        var room := MAX_PROXY_HEADER_BYTES + 1 - |received|;
        var chunk := Recv(if RECEIVE_SIZE < room then RECEIVE_SIZE else room);
        if chunk.None? {
          return NetworkFailure;
        }
        if chunk.value == [] {
          assert stream == received;
          return Disconnected;
        }
        assert received + (chunk.value + pending) == (received + chunk.value) + pending;
        received := received + chunk.value;
      }
    }

    /** The two steps of _handle_client that bound the header: reception, then the size and
        termination checks of parse_browser_proxy_request. None is a network failure. */
    method AcceptHeader() returns (accepted: Option<bool>, header: Bytes, buffered: Bytes)
      modifies this
      ensures broken == (old(broken) || accepted.None?)
      // Whatever the chunks, a header is accepted exactly if its marker ends within the limit.
      ensures accepted.Some? ==>
        (accepted.value <==> EndsWithin(old(pending), MAX_PROXY_HEADER_BYTES))
      ensures accepted == Some(true) ==>
        FirstEndsAt(old(pending), |header|) && old(pending) == header + buffered + pending
    {
      header, buffered := [], [];
      var outcome := ReceiveHeader();
      match outcome
      case Received(h, b) =>
        header, buffered := h, b;
        assert old(pending) == h + (b + pending);
        MarkerIsStable(h, b + pending, |h|);
        var ok := |h| <= MAX_PROXY_HEADER_BYTES && EndsAt(h, |h|);
        if EndsWithin(old(pending), MAX_PROXY_HEADER_BYTES) {
          var end: nat :| end <= MAX_PROXY_HEADER_BYTES && FirstEndsAt(old(pending), end);
          HeaderIsUnique(old(pending), end, |h|);
        }
        accepted := Some(ok);
      case NetworkFailure =>
        accepted := None;
      case _ =>
        accepted := Some(false);
    }
  }
}
