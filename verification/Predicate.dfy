/** Access-list predicates (apps/settlement-feed/internal/oraclerelay/predicate.go): a message,
    the 0xff delimiter, and zero padding to a multiple of 32 bytes. */
module Predicate {
  import opened Wrappers

  type byte = b: nat | b < 256

  const CHUNK: nat := 32
  const DELIMITER: byte := 0xff

  datatype UnpackError = MissingDelimiter | ExcessPadding | WrongDelimiter

  type Chunk = c: seq<byte> | |c| == CHUNK witness Zeros(CHUNK)

  function Zeros(n: nat): (z: seq<byte>)
    ensures |z| == n && forall i :: 0 <= i < n ==> z[i] == 0
  {
    seq(n, _ => 0)
  }

  /** The bytes a chunk list stands for. */
  ghost function Flatten(chunks: seq<Chunk>): (r: seq<byte>)
    ensures |r| == CHUNK * |chunks|
    ensures forall i :: 0 <= i < |r| ==> r[i] == chunks[i / CHUNK][i % CHUNK]
  {
    seq(CHUNK * |chunks|, i requires 0 <= i < CHUNK * |chunks| => chunks[i / CHUNK][i % CHUNK])
  }

  /** What packing means: the flattened chunks are message, delimiter, zeros, and not one chunk
      more than that needs. */
  ghost predicate Packs(message: seq<byte>, chunks: seq<Chunk>) {
    && |chunks| == |message| / CHUNK + 1
    && Flatten(chunks) == message + [DELIMITER] + Zeros(CHUNK * |chunks| - |message| - 1)
  }

  lemma {:induction false} FlattenInjective(a: seq<Chunk>, b: seq<Chunk>)
    requires Flatten(a) == Flatten(b)
    ensures a == b
  {
    assert |a| == |b|;
    forall i | 0 <= i < |a| ensures a[i] == b[i] {
      forall j | 0 <= j < CHUNK ensures a[i][j] == b[i][j] {
        var k := CHUNK * i + j;
        assert k / CHUNK == i && k % CHUNK == j;
        assert Flatten(a)[k] == Flatten(b)[k];
      }
    }
  }

  /** PackPredicate, chunk array and in-place delimiter included. */
  method PackPredicate(message: seq<byte>) returns (chunks: seq<Chunk>)
    ensures Packs(message, chunks)
  {
    var full := |message| / CHUNK;
    var whole: seq<Chunk> := [];
    for i := 0 to full
      invariant |whole| == i
      invariant forall k :: 0 <= k < i ==> whole[k] == message[CHUNK * k..CHUNK * k + CHUNK]
    {
      whole := whole + [message[CHUNK * i..CHUNK * i + CHUNK]];
    }
    var rest := |message| % CHUNK;
    var last := new byte[CHUNK](_ => 0);
    for j := 0 to rest
      invariant forall k :: 0 <= k < CHUNK ==> last[k] == if k < j then message[CHUNK * full + k] else 0
    {
      last[j] := message[CHUNK * full + j];
    }
    last[rest] := DELIMITER;
    chunks := whole + [last[..]];
    PackedBytes(message, chunks, last[..]);
  }

  lemma {:induction false} PackedBytes(message: seq<byte>, chunks: seq<Chunk>, last: Chunk)
    requires |chunks| == |message| / CHUNK + 1 && chunks[|chunks| - 1] == last
    requires forall k :: 0 <= k < |chunks| - 1 ==> chunks[k] == message[CHUNK * k..CHUNK * k + CHUNK]
    requires forall k :: 0 <= k < CHUNK ==>
               last[k] == if k < |message| % CHUNK then message[CHUNK * (|chunks| - 1) + k]
                                          else if k == |message| % CHUNK then DELIMITER else 0
    ensures Packs(message, chunks)
  {
    var full := |message| / CHUNK;
    var packed := message + [DELIMITER] + Zeros(CHUNK * |chunks| - |message| - 1);
    forall i | 0 <= i < CHUNK * |chunks| ensures Flatten(chunks)[i] == packed[i] {
      assert i == CHUNK * (i / CHUNK) + i % CHUNK;
      if i / CHUNK < full {
        assert chunks[i / CHUNK][i % CHUNK] == message[CHUNK * (i / CHUNK)..CHUNK * (i / CHUNK) + CHUNK][i % CHUNK];
      }
    }
  }

  /** The length left after trimming zeros from the right. */
  method TrimRightZeroes(padded: seq<byte>) returns (n: nat)
    ensures n <= |padded| && (n > 0 ==> padded[n - 1] != 0)
    ensures forall k :: n <= k < |padded| ==> padded[k] == 0
  {
    n := |padded|;
    while n > 0 && padded[n - 1] == 0
      invariant 0 <= n <= |padded| && forall k :: n <= k < |padded| ==> padded[k] == 0
    {
      n := n - 1;
    }
  }

  /** Where the trimmed bytes of a packing end. */
  lemma {:induction false} PackedEnd(message: seq<byte>, chunks: seq<Chunk>, n: nat)
    requires Packs(message, chunks) && n <= |Flatten(chunks)| && (n > 0 ==> Flatten(chunks)[n - 1] != 0)
    requires forall k :: n <= k < |Flatten(chunks)| ==> Flatten(chunks)[k] == 0
    ensures n == |message| + 1 && Flatten(chunks)[n - 1] == DELIMITER && (n + CHUNK - 1) / CHUNK == |chunks|
  {
    assert Flatten(chunks)[|message|] == DELIMITER;
  }

  method Join(chunks: seq<Chunk>) returns (padded: seq<byte>)
    ensures padded == Flatten(chunks)
  {
    padded := [];
    for i := 0 to |chunks|
      invariant |padded| == CHUNK * i
      invariant forall k :: 0 <= k < |padded| ==> padded[k] == chunks[k / CHUNK][k % CHUNK]
    {
      padded := padded + chunks[i];
    }
    assert padded == Flatten(chunks);
  }

  /** UnpackPredicate: trim zeros from the right, then check length and delimiter. */
  method UnpackPredicate(chunks: seq<Chunk>) returns (r: Result<seq<byte>, UnpackError>)
    ensures r.Ok? ==> Packs(r.value, chunks)
    ensures r.Err? ==> forall message :: !Packs(message, chunks)
    ensures r == Err(MissingDelimiter) <==> forall k :: 0 <= k < |Flatten(chunks)| ==> Flatten(chunks)[k] == 0
  {
    var padded := Join(chunks);
    hide Flatten, Packs;
    var n := TrimRightZeroes(padded);
    forall message | Packs(message, chunks)
      ensures n == |message| + 1 && padded[n - 1] == DELIMITER && (n + CHUNK - 1) / CHUNK == |chunks|
    {
      PackedEnd(message, chunks, n);
    }
    if n == 0 {
      return Err(MissingDelimiter);
    }
    assert padded[n - 1] != 0;
    if (n + CHUNK - 1) / CHUNK != |chunks| {
      return Err(ExcessPadding);
    }
    if padded[n - 1] != DELIMITER {
      return Err(WrongDelimiter);
    }
    TrimmedPacks(padded, chunks, n);
    return Ok(padded[..n - 1]);
  }

  lemma {:induction false} TrimmedPacks(padded: seq<byte>, chunks: seq<Chunk>, n: nat)
    requires padded == Flatten(chunks) && 0 < n <= |padded| && padded[n - 1] == DELIMITER
    requires (n + CHUNK - 1) / CHUNK == |chunks| && forall k :: n <= k < |padded| ==> padded[k] == 0
    ensures Packs(padded[..n - 1], chunks)
  {
    assert padded == padded[..n - 1] + [DELIMITER] + Zeros(|padded| - n);
  }

  /** Packing is a bijection onto the chunk lists that unpack: a list packs at most one message
      and a message has at most one packing. */
  lemma {:induction false} PackingUnique(m: seq<byte>, n: seq<byte>, c: seq<Chunk>, d: seq<Chunk>)
    requires Packs(m, c) && Packs(n, d)
    ensures m == n <==> c == d
  {
    if c == d {
      var f := Flatten(c);
      assert f[|m|] == DELIMITER && f[|n|] == DELIMITER;
      assert |m| == |n|;
      assert m == f[..|m|] && n == f[..|n|];
    }
    if m == n {
      FlattenInjective(c, d);
    }
  }

  /** Every message round-trips, trailing zeros and exact multiples of 32 included. */
  method RoundTrip(message: seq<byte>) returns (r: Result<seq<byte>, UnpackError>)
    ensures r == Ok(message)
  {
    var chunks := PackPredicate(message);
    r := UnpackPredicate(chunks);
    if r.Ok? {
      PackingUnique(message, r.value, chunks, chunks);
    }
  }
}
