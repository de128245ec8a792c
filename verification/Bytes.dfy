/** Byte buffers that are filled part by part. */
module Bytes {
  import opened Common

  type byte = x: int | 0 <= x < 256

  function TotalLength(parts: seq<seq<byte>>): (n: nat)
    ensures n == |Flatten(parts)|
  {
    if parts == [] then 0 else TotalLength(parts[..|parts| - 1]) + |parts[|parts| - 1]|
  }

  lemma {:induction false} FlattenPrefixFits(parts: seq<seq<byte>>, i: nat)
    requires i <= |parts|
    ensures |Flatten(parts[..i])| <= |Flatten(parts)|
    decreases |parts|
  {
    if i == |parts| {
      FullPrefix(parts);
    } else {
      assert parts[..|parts| - 1][..i] == parts[..i];
      FlattenPrefixFits(parts[..|parts| - 1], i);
    }
  }

  method ConcatBytes(parts: seq<seq<byte>>) returns (combined: array<byte>)
    ensures fresh(combined) && combined[..] == Flatten(parts)
  {
    combined := new byte[TotalLength(parts)];
    var offset := 0;
    FlattenPrefixFits(parts, 0);
    for p := 0 to |parts|
      invariant offset == |Flatten(parts[..p])| <= combined.Length
      invariant combined[..offset] == Flatten(parts[..p])
    {
      FlattenPrefixFits(parts, p + 1);
      PrefixStep(parts, p);
      ghost var done := combined[..offset];
      forall i | 0 <= i < |parts[p]| {
        combined[offset + i] := parts[p][i];
      }
      assert combined[..offset + |parts[p]|] == done + parts[p];
      offset := offset + |parts[p]|;
    }
    FullPrefix(parts);
  }

  /**
   `readJson` of src/features/github/pr-verification-api.ts, up to the decoding: the body is refused when its
   declared or its actual length is over the limit, and is otherwise assembled from its chunks.
   */
  method ReadBody(chunks: seq<seq<byte>>, declared: Option<int>, limit: nat) returns (body: Option<array<byte>>)
    ensures body.Some? <==> !(declared.Some? && declared.value > limit) && |Flatten(chunks)| <= limit
    ensures body.Some? ==> fresh(body.value) && body.value[..] == Flatten(chunks)
  {
    if declared.Some? && declared.value > limit {
      return None;
    }
    var received: seq<seq<byte>> := [];
    var length := 0;
    for next := 0 to |chunks|
      invariant received == chunks[..next] && length == |Flatten(received)| <= limit
    {
      length := length + |chunks[next]|;
      PrefixStep(chunks, next);
      FlattenPrefixFits(chunks, next + 1);
      if length > limit {
        return None;
      }
      received := received + [chunks[next]];
    }
    FullPrefix(chunks);
    var combined := ConcatBytes(received);
    body := Some(combined);
  }
}
