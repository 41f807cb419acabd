/** The buffered reader over the RFB socket: `read(n)` gives exactly the next n bytes, however they arrive. */
module SocketReader {
  import opened Wrappers
  import opened Strings
  import opened Bits


  /** The stream cut into consecutive pieces of the lengths asked for, for as long as it lasts. */
  function Pieces(stream: Bytes, lengths: seq<nat>): seq<Bytes> {
    if |lengths| == 0 || |stream| < lengths[0] then []
    else [stream[..lengths[0]]] + Pieces(stream[lengths[0]..], lengths[1..])
  }

  class Reader {
    var buffer: Bytes
    var pending: Option<nat>
    /** Everything the socket has handed over, every length asked for, and every read that has been resolved. */
    ghost var stream: Bytes
    ghost var asked: seq<nat>
    ghost var resolved: seq<Bytes>

    ghost predicate Valid()
      reads this
    {
      && stream == Concat(resolved) + buffer
      && |asked| == |resolved| + (if pending.Some? then 1 else 0)
      && (forall i :: 0 <= i < |resolved| ==> |resolved[i]| == asked[i])
      && (pending.Some? ==> pending.value == asked[|resolved|] && |buffer| < pending.value)
    }

    constructor ()
      ensures Valid() && stream == [] && asked == [] && resolved == [] && pending == None
    {
      buffer, pending := [], None;
      stream, asked, resolved := [], [], [];
    }

    /** A chunk arrives: it may complete the pending read, and nothing else. */
    method Data(chunk: Bytes) returns (out: Option<Bytes>)
      requires Valid()
      modifies this
      ensures Valid() && stream == old(stream) + chunk && asked == old(asked)
      ensures resolved == old(resolved) + if out.Some? then [out.value] else []
    {
      buffer, stream := buffer + chunk, stream + chunk;
      assert stream == Concat(resolved) + buffer;
      out := Flush();
    }

    /** A read is issued once the previous one has been resolved. */
    method Read(n: nat) returns (out: Option<Bytes>)
      requires Valid() && pending == None
      modifies this
      ensures Valid() && stream == old(stream) && asked == old(asked) + [n]
      ensures resolved == old(resolved) + if out.Some? then [out.value] else []
    {
      pending, asked := Some(n), asked + [n];
      out := Flush();
    }

    method Flush() returns (out: Option<Bytes>)
      requires stream == Concat(resolved) + buffer
      requires |asked| == |resolved| + (if pending.Some? then 1 else 0)
      requires forall i :: 0 <= i < |resolved| ==> |resolved[i]| == asked[i]
      requires pending.Some? ==> pending.value == asked[|resolved|]
      modifies this
      ensures Valid() && stream == old(stream) && asked == old(asked)
      ensures resolved == old(resolved) + if out.Some? then [out.value] else []
    {
      if pending == None || |buffer| < pending.value {
        return None;
      }
      var n := pending.value;
      pending := None;
      out := Some(buffer[..n]);
      buffer := buffer[n..];
      assert (resolved + [out.value])[..|resolved|] == resolved;
      resolved := resolved + [out.value];
    }

    /** What the reads have returned is a function of the stream and the lengths alone: no chunk boundary shows. */
    lemma ReadsArePieces()
      requires Valid()
      ensures resolved == Pieces(stream, asked)
    {
      PiecesUnique(resolved, buffer, asked);
    }
  }

  lemma {:induction false} ConcatFirst(parts: seq<Bytes>)
    requires |parts| > 0
    ensures Concat(parts) == parts[0] + Concat(parts[1..])
  {
    if |parts| > 1 {
      ConcatFirst(Init(parts));
      assert Init(parts)[1..] == Init(parts[1..]);
    }
  }

  lemma {:induction false} PiecesUnique(parts: seq<Bytes>, rest: Bytes, lengths: seq<nat>)
    requires |parts| <= |lengths| && forall i :: 0 <= i < |parts| ==> |parts[i]| == lengths[i]
    requires |parts| == |lengths| || |rest| < lengths[|parts|]
    ensures Pieces(Concat(parts) + rest, lengths) == parts
    decreases |parts|
  {
    if |parts| == 0 {
      assert Concat(parts) + rest == rest;
    } else {
      ConcatFirst(parts);
      PiecesUnique(parts[1..], rest, lengths[1..]);
      var stream := Concat(parts) + rest;
      assert stream[..lengths[0]] == parts[0];
      assert stream[lengths[0]..] == Concat(parts[1..]) + rest;
    }
  }
}
