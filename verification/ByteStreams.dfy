/** The byte transport both wire protocols run over. */
module ByteStreams {
  import opened Bytes

  /** A byte pipe. Each receive delivers some non-empty part of what was asked
      for, as long as anything is left to deliver. */
  class Transport {
    var incoming: seq<Byte>
    var sent: seq<Byte>

    constructor (bytes: seq<Byte>)
      ensures incoming == bytes && sent == []
    {
      incoming, sent := bytes, [];
    }

    method Send(bytes: seq<Byte>)
      modifies `sent
      ensures sent == old(sent) + bytes
    {
      sent := sent + bytes;
    }

    method Receive(dst: array<Byte>, offset: nat) returns (n: nat)
      requires offset < dst.Length
      modifies `incoming, dst
      ensures offset + n <= dst.Length && n <= |old(incoming)|
      ensures n == 0 <==> old(incoming) == []
      ensures incoming == old(incoming)[n..]
      ensures dst[..offset] == old(dst[..offset]) && dst[offset..offset + n] == old(incoming)[..n]
    {
      if incoming == [] {
        return 0;
      }
      n :| 1 <= n <= dst.Length - offset && n <= |incoming|;
      forall i | 0 <= i < n { dst[offset + i] := incoming[i]; }
      incoming := incoming[n..];
    }
  }

  /** Two consecutive parts of a stream, cut short. */
  lemma SplitPrefix(head: seq<Byte>, tail: seq<Byte>, input: seq<Byte>) returns (rest: seq<Byte>)
    requires input < head + tail && |input| >= |head|
    ensures input == head + rest && rest < tail
  {
    rest := input[|head|..];
    assert input == (head + tail)[..|input|];
    assert input[..|head|] == head;
    assert rest == tail[..|rest|];
  }

  lemma ShortPrefix(head: seq<Byte>, tail: seq<Byte>, input: seq<Byte>)
    requires input < head + tail && |input| < |head|
    ensures input < head
  {
    assert input == (head + tail)[..|input|] == head[..|input|];
  }

  /** What a buffer holds after one more receive. */
  lemma ReceivedMore(source: seq<Byte>, offset: nat, n: nat, before: seq<Byte>, after: seq<Byte>)
    requires offset + n <= |source| && before == source[..offset]
    requires |after| == offset + n && after[..offset] == before && after[offset..] == source[offset..][..n]
    ensures after == source[..offset + n] && source[offset..][n..] == source[offset + n..]
  {
    assert source[offset..][..n] == source[offset..offset + n];
    assert after == after[..offset] + after[offset..];
  }
}
