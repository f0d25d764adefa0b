/** The chunked authenticated stream that blobs are stored in, over an abstract AEAD cipher. */
module Crypto {
  import opened Base
  import opened Octets

  /** A keyed AEAD cipher (AES-256-GCM under one data key): nonce, text and associated data in, text out. */
  datatype Aead = Aead(seal: (Bytes, Bytes, Bytes) -> Bytes, open: (Bytes, Bytes, Bytes) -> Option<Bytes>)

  const CHUNK: nat := 65536
  const NONCE: nat := 12
  const TAG: nat := 16
  const MAGIC: Bytes := [68, 83, 66, 49]
  const HEADER: nat := 8

  /** What every stream begins with: the magic and the chunk size. */
  const PREAMBLE: Bytes := MAGIC + [0, 1, 0, 0]

  const WRAP: nat := 0x1_0000_0000_0000_0000

  /** What GCM promises of one key: a tag of 16 bytes, and opening undoes sealing. */
  ghost predicate Correct(g: Aead) {
    forall nonce: Bytes, plain: Bytes, aad: Bytes {:trigger g.seal(nonce, plain, aad)} ::
      |nonce| == NONCE ==>
        && |g.seal(nonce, plain, aad)| == |plain| + TAG
        && g.open(nonce, g.seal(nonce, plain, aad), aad) == Some(plain)
  }

  /** The associated data of a chunk: its index in eight bytes and whether it is the last one. */
  function ChunkAad(index: nat, final: bool): (aad: Bytes)
    ensures |aad| == 9
  {
    BigEndian(index, 8) + [if final then 1 else 0]
  }

  /** Incrementing a 64-bit unsigned counter. */
  function Next(index: nat): nat {
    if index + 1 == WRAP then 0 else index + 1
  }

  /** The value of such a counter after `n` increments. */
  ghost function Counter(n: nat): (index: nat)
    ensures index < WRAP
  {
    if n == 0 then 0 else Next(Counter(n - 1))
  }

  lemma {:induction false} CounterIsRemainder(n: nat)
    ensures Counter(n) == n % WRAP
  {
    if n > 0 {
      CounterIsRemainder(n - 1);
      var k, r := (n - 1) / WRAP, (n - 1) % WRAP;
      if r + 1 < WRAP {
        Remainder(n, WRAP, k, r + 1);
      } else {
        Remainder(n, WRAP, k + 1, 0);
      }
    }
  }

  /** The eight index bytes are the same whether or not the counter wrapped. */
  lemma CounterWraps(n: nat)
    ensures BigEndian(Counter(n), 8) == BigEndian(n, 8)
  {
    assert Power(8) == WRAP;
    CounterIsRemainder(n);
    BigEndianWraps(n, 8);
  }

  lemma ChunkAadInjective(i: nat, f: bool, j: nat, g: bool)
    requires i < WRAP && j < WRAP
    requires ChunkAad(i, f) == ChunkAad(j, g)
    ensures i == j && f == g
  {
    assert Power(8) == WRAP;
    assert ChunkAad(i, f)[..8] == BigEndian(i, 8);
    assert ChunkAad(j, g)[..8] == BigEndian(j, 8);
    NumberOfBigEndian(i, 8);
    NumberOfBigEndian(j, 8);
    assert ChunkAad(i, f)[8] == ChunkAad(j, g)[8];
  }

  // --- The format ---

  /** The pieces a plaintext is cut into; the empty plaintext is one empty piece. */
  ghost function Chunks(plain: Bytes): (pieces: seq<Bytes>)
    ensures |pieces| > 0
  {
    if |plain| <= CHUNK then [plain] else [plain[..CHUNK]] + Chunks(plain[CHUNK..])
  }

  ghost function Joined(pieces: seq<Bytes>): Bytes {
    if pieces == [] then [] else pieces[0] + Joined(pieces[1..])
  }

  /** A sealed chunk on disk: nonce, length of the ciphertext, ciphertext. */
  function Framed(g: Aead, nonce: Bytes, plain: Bytes, aad: Bytes): Bytes {
    nonce + BigEndian(|g.seal(nonce, plain, aad)|, 4) + g.seal(nonce, plain, aad)
  }

  /** A chunk on disk, byte by byte: a nonce of twelve bytes, the ciphertext's length in four, and the ciphertext, which
      is bound to the chunk's index in eight bytes and one more that is 1 for the last chunk. */
  lemma ChunkLayout(g: Aead, nonce: Bytes, plain: Bytes, index: nat, final: bool)
    requires Correct(g) && |nonce| == 12 && |plain| <= 65536 && index < 0x1_0000_0000_0000_0000
    ensures var aad := ChunkAad(index, final);
      && |aad| == 9 && Number(aad[..8]) == index && aad[8] == (if final then 1 else 0)
      && var f, ct := Framed(g, nonce, plain, aad), g.seal(nonce, plain, aad);
         |f| == |plain| + 32 && f[..12] == nonce && Number(f[12..16]) == |ct| && f[16..] == ct
  {
    var aad := ChunkAad(index, final);
    var f, ct := Framed(g, nonce, plain, aad), g.seal(nonce, plain, aad);
    assert Power(8) == 0x1_0000_0000_0000_0000 && Power(4) == 0x1_0000_0000;
    assert aad[..8] == BigEndian(index, 8);
    NumberOfBigEndian(index, 8);
    assert f[12..16] == BigEndian(|ct|, 4);
    NumberOfBigEndian(|ct|, 4);
  }

  /** At least one piece, all of 65536 bytes but the last, which is empty only for the empty plaintext. */
  lemma {:induction false} ChunkShape(plain: Bytes)
    ensures Joined(Chunks(plain)) == plain
    ensures |Chunks(plain)| == if plain == [] then 1 else (|plain| + CHUNK - 1) / CHUNK
    ensures forall i :: 0 <= i < |Chunks(plain)| - 1 ==> |Chunks(plain)[i]| == CHUNK
    ensures var last := Chunks(plain)[|Chunks(plain)| - 1]; |last| <= CHUNK && (last == [] ==> plain == [])
  {
    if |plain| <= CHUNK {
      assert Joined([plain]) == plain + Joined([]);
    } else {
      ChunkShape(plain[CHUNK..]);
      assert Chunks(plain)[1..] == Chunks(plain[CHUNK..]);
    }
  }

  /** A plaintext cut into pieces and the nonces drawn for them, in order. */
  datatype Sealing = Sealing(pieces: seq<Bytes>, nonces: seq<Bytes>) {
    ghost predicate Valid() {
      && 0 < |pieces| == |nonces|
      && (forall i :: 0 <= i < |nonces| ==> |nonces[i]| == NONCE)
      && (forall i :: 0 <= i < |pieces| ==> |pieces[i]| <= CHUNK)
    }

    ghost function Aad(i: nat): Bytes
      requires i < |pieces|
    {
      ChunkAad(i, i + 1 == |pieces|)
    }

    ghost function Sealed(g: Aead, i: nat): Bytes
      requires i < |nonces| <= |pieces|
    {
      g.seal(nonces[i], pieces[i], Aad(i))
    }

    ghost function Frame(g: Aead, i: nat): Bytes
      requires i < |nonces| <= |pieces|
    {
      Framed(g, nonces[i], pieces[i], Aad(i))
    }

    /** The frames from the i-th on, one after the other. */
    ghost function Frames(g: Aead, i: nat): Bytes
      requires i <= |nonces| <= |pieces|
      decreases |nonces| - i
    {
      if i == |nonces| then [] else Frame(g, i) + Frames(g, i + 1)
    }

    /** The whole blob: magic, chunk size, frames. */
    ghost function Stream(g: Aead): Bytes
      requires |pieces| == |nonces|
    {
      PREAMBLE + Frames(g, 0)
    }
  }

  /** One more frame goes at the end. */
  lemma {:induction false} FramesGrow(g: Aead, pieces: seq<Bytes>, nonces: seq<Bytes>, nonce: Bytes, i: nat)
    requires i <= |nonces| < |pieces|
    ensures Sealing(pieces, nonces + [nonce]).Frames(g, i)
         == Sealing(pieces, nonces).Frames(g, i) + Sealing(pieces, nonces + [nonce]).Frame(g, |nonces|)
    decreases |nonces| - i
  {
    var before, after := Sealing(pieces, nonces), Sealing(pieces, nonces + [nonce]);
    if i < |nonces| {
      FramesGrow(g, pieces, nonces, nonce, i + 1);
      var frame, rest, last := before.Frame(g, i), before.Frames(g, i + 1), after.Frame(g, |nonces|);
      assert after.Frame(g, i) == frame && after.Frames(g, i + 1) == rest + last;
      assert frame + (rest + last) == (frame + rest) + last;
    } else {
      assert after.Frames(g, i + 1) == [];
    }
  }

  /** Whether a decryption succeeded, and what it had written by then. */
  datatype Decoded = Decoded(ok: bool, written: Bytes) {
    ghost function After(p: Bytes): Decoded {
      Decoded(ok, p + written)
    }
  }

  const FAILED := Decoded(false, [])

  /** The reader's side, as a recursive parser. */
  ghost function DecodeFrames(g: Aead, s: Bytes, index: nat): Decoded
    decreases |s|
  {
    if |s| < NONCE + 4 then FAILED
    else
      var size := Number(s[NONCE..NONCE + 4]);
      if |s| < NONCE + 4 + size then FAILED
      else
        var rest := s[NONCE + 4 + size..];
        match g.open(s[..NONCE], s[NONCE + 4..NONCE + 4 + size], ChunkAad(index, rest == []))
        case None => FAILED
        case Some(p) =>
          if rest == [] then Decoded(true, p) else DecodeFrames(g, rest, index + 1).After(p)
  }

  ghost function Decode(g: Aead, s: Bytes): Decoded {
    if |s| < HEADER || s[..4] != MAGIC then FAILED else DecodeFrames(g, s[HEADER..], 0)
  }

  // --- The stream as code ---

  method RandomBytes(n: nat) returns (b: Bytes)
    ensures |b| == n
  {
    assert |seq(n, _ => 0 as byte)| == n;
    b :| |b| == n;
  }

  method WriteChunk(g: Aead, w: Bytes, index: nat, plain: Bytes, final: bool) returns (w': Bytes)
    requires index < WRAP
    ensures exists nonce :: |nonce| == NONCE && w' == w + Framed(g, nonce, plain, ChunkAad(index, final))
  {
    var nonce := RandomBytes(NONCE);
    var ct := g.seal(nonce, plain, ChunkAad(index, final));
    w' := w + nonce;
    w' := w' + BigEndian(|ct|, 4);
    w' := w' + ct;
    assert w' == w + Framed(g, nonce, plain, ChunkAad(index, final));
  }

  /** The writer has put out one frame for each nonce drawn so far. */
  ghost predicate Progress(g: Aead, all: seq<Bytes>, nonces: seq<Bytes>, index: nat, w: Bytes) {
    && |nonces| <= |all| && index == Counter(|nonces|)
    && (forall i :: 0 <= i < |nonces| ==> |nonces[i]| == NONCE)
    && w == PREAMBLE + Sealing(all, nonces).Frames(g, 0)
  }

  /** The writer's next chunk is the next piece, and it is the last one exactly when nothing is left. */
  lemma NextChunk(all: seq<Bytes>, i: nat, left: Bytes, buf: Bytes, unread: Bytes, final: bool)
    requires i < |all| && Chunks(left) == all[i..]
    requires buf == if |left| < CHUNK then left else left[..CHUNK]
    requires unread == left[|buf|..] && final == (|left| <= CHUNK)
    ensures buf == all[i] && final == (i + 1 == |all|)
    ensures !final ==> Chunks(unread) == all[i + 1..]
  {
    assert all[i..][0] == all[i];
    if final {
      assert left[..|left|] == left;
      assert |all[i..]| == 1;
    } else {
      assert all[i..][1..] == all[i + 1..];
      assert Chunks(left)[1..] == Chunks(left[CHUNK..]);
    }
  }

  lemma Concatenates(a: Bytes, b: Bytes, c: Bytes)
    ensures (a + b) + c == a + (b + c)
  {
  }

  lemma SameAad(n: nat, final: bool)
    ensures ChunkAad(Counter(n), final) == ChunkAad(n, final)
  {
    CounterWraps(n);
  }

  lemma ChunkWritten(g: Aead, all: seq<Bytes>, nonces: seq<Bytes>, nonce: Bytes, index: nat, w: Bytes, w': Bytes)
    requires Progress(g, all, nonces, index, w) && |nonces| < |all| && |nonce| == NONCE
    requires w' == w + Framed(g, nonce, all[|nonces|], ChunkAad(index, |nonces| + 1 == |all|))
    ensures Progress(g, all, nonces + [nonce], Next(index), w')
  {
    var n := |nonces|;
    var after := Sealing(all, nonces + [nonce]);
    SameAad(n, n + 1 == |all|);
    assert after.Frame(g, n) == Framed(g, nonce, all[n], ChunkAad(index, n + 1 == |all|));
    FramesGrow(g, all, nonces, nonce, 0);
    Concatenates(PREAMBLE, Sealing(all, nonces).Frames(g, 0), after.Frame(g, n));
    assert Counter(n + 1) == Next(Counter(n));
  }

  lemma Complete(g: Aead, r: Bytes, nonces: seq<Bytes>, index: nat, w: Bytes)
    requires Progress(g, Chunks(r), nonces, index, w) && |nonces| == |Chunks(r)|
    ensures Sealing(Chunks(r), nonces).Valid() && w == Sealing(Chunks(r), nonces).Stream(g)
  {
    ChunkShape(r);
  }

  method EncryptStream(g: Aead, r: Bytes) returns (w: Bytes)
    ensures exists nonces :: Sealing(Chunks(r), nonces).Valid() && w == Sealing(Chunks(r), nonces).Stream(g)
  {
    w := MAGIC;
    w := w + BigEndian(CHUNK, 4);
    assert w == PREAMBLE by { assert BigEndian(CHUNK, 4) == [0, 1, 0, 0]; }
    ghost var all, nonces: seq<Bytes> := Chunks(r), [];
    var unread, index, final := r, 0, false;
    assert all[0..] == all;
    while !final
      invariant Progress(g, all, nonces, index, w)
      invariant if final then |nonces| == |all| else |nonces| < |all| && Chunks(unread) == all[|nonces|..]
      decreases |all| - |nonces|, !final
    {
      ghost var i, left, w0 := |nonces|, unread, w;
      var n := if |unread| < CHUNK then |unread| else CHUNK;
      var buf := unread[..n];
      unread := unread[n..];
      final := n < CHUNK;
      if !final && unread == [] {
        final := true;
      }
      NextChunk(all, i, left, buf, unread, final);
      w := WriteChunk(g, w, index, buf, final);
      ghost var nonce :| |nonce| == NONCE && w == w0 + Framed(g, nonce, buf, ChunkAad(index, final));
      ChunkWritten(g, all, nonces, nonce, index, w0, w);
      nonces := nonces + [nonce];
      index := Next(index);
    }
    Complete(g, r, nonces, index, w);
  }

  /** What a stream decodes to once its first chunk has been opened. */
  ghost function Onwards(g: Aead, n: nat, pt: Option<Bytes>, rest: Bytes): Decoded {
    if pt.None? then FAILED
    else if rest == [] then Decoded(true, pt.value)
    else DecodeFrames(g, rest, n + 1).After(pt.value)
  }

  /** Reads and opens one chunk; nothing comes back if it is cut off or not genuine. */
  method ReadChunk(g: Aead, s: Bytes, index: nat, ghost n: nat) returns (pt: Option<Bytes>, unread: Bytes)
    requires index == Counter(n)
    ensures pt.Some? ==> |unread| < |s|
    ensures DecodeFrames(g, s, n) == Onwards(g, n, pt, unread)
  {
    pt, unread := None, s;
    if |unread| < NONCE { return; }
    var nonce := unread[..NONCE];
    unread := unread[NONCE..];
    if |unread| < 4 { return; }
    var length := unread[..4];
    var size := Number(length);
    unread := unread[4..];
    assert s[NONCE..NONCE + 4] == length;
    if |unread| < size { return; }
    var ct := unread[..size];
    unread := unread[size..];
    assert s[NONCE + 4..NONCE + 4 + size] == ct && s[NONCE + 4 + size..] == unread;
    SameAad(n, unread == []);
    pt := g.open(nonce, ct, ChunkAad(index, unread == []));
  }

  method DecryptStream(g: Aead, r: Bytes) returns (ok: bool, w: Bytes)
    ensures Decoded(ok, w) == Decode(g, r)
  {
    ok, w := false, [];
    if |r| < |MAGIC| || r[..4] != MAGIC { return; }
    if |r| < HEADER { return; }
    var unread, index := r[HEADER..], 0;
    ghost var n := 0;
    while !ok
      invariant index == Counter(n)
      invariant Decode(g, r) == if ok then Decoded(true, w) else DecodeFrames(g, unread, n).After(w)
      decreases !ok, |unread|
    {
      var pt, rest := ReadChunk(g, unread, index, n);
      if pt.None? { return; }
      if rest != [] {
        Concatenates(w, pt.value, DecodeFrames(g, rest, n + 1).written);
      }
      w := w + pt.value;
      n, index := n + 1, Next(index);
      unread, ok := rest, rest == [];
    }
  }

  // --- What the format guarantees ---

  /** The key opens every chunk of the sealing to the piece that went in, each ciphertext being one tag longer. */
  ghost predicate Opens(g: Aead, x: Sealing)
    requires x.Valid()
  {
    forall i :: 0 <= i < |x.pieces| ==>
      |x.Sealed(g, i)| == |x.pieces[i]| + TAG && g.open(x.nonces[i], x.Sealed(g, i), x.Aad(i)) == Some(x.pieces[i])
  }

  /** Integrity of the cipher under a key that sealed this one stream: nothing else opens. */
  ghost predicate OpensNothingElse(g: Aead, x: Sealing)
    requires x.Valid()
  {
    forall nonce, ct, aad {:trigger g.open(nonce, ct, aad)} :: g.open(nonce, ct, aad).Some? ==>
      exists i :: 0 <= i < |x.pieces| && nonce == x.nonces[i] && ct == x.Sealed(g, i) && aad == x.Aad(i)
  }

  lemma FrameParses(g: Aead, x: Sealing, i: nat, s: Bytes, rest: Bytes)
    requires x.Valid() && Opens(g, x) && i < |x.pieces|
    requires s == x.Frame(g, i) + rest
    ensures |s| == NONCE + 4 + |x.Sealed(g, i)| + |rest|
    ensures s[..NONCE] == x.nonces[i] && Number(s[NONCE..NONCE + 4]) == |x.Sealed(g, i)|
    ensures s[NONCE + 4..NONCE + 4 + |x.Sealed(g, i)|] == x.Sealed(g, i) && s[NONCE + 4 + |x.Sealed(g, i)|..] == rest
  {
    var size := |x.Sealed(g, i)|;
    assert Power(4) == 0x1_0000_0000;
    NumberOfBigEndian(size, 4);
    assert s[NONCE..NONCE + 4] == BigEndian(size, 4);
  }

  /** Only the i-th frame reads as the i-th frame. */
  lemma ParsesAsFrame(g: Aead, x: Sealing, i: nat, s: Bytes, rest: Bytes)
    requires x.Valid() && i < |x.pieces|
    requires |s| == NONCE + 4 + |x.Sealed(g, i)| + |rest|
    requires s[..NONCE] == x.nonces[i] && Number(s[NONCE..NONCE + 4]) == |x.Sealed(g, i)|
    requires s[NONCE + 4..NONCE + 4 + |x.Sealed(g, i)|] == x.Sealed(g, i) && s[NONCE + 4 + |x.Sealed(g, i)|..] == rest
    ensures s == x.Frame(g, i) + rest
  {
    BigEndianOfNumber(s[NONCE..NONCE + 4]);
    assert s == s[..NONCE] + s[NONCE..NONCE + 4] + s[NONCE + 4..NONCE + 4 + |x.Sealed(g, i)|] + rest;
  }

  lemma {:induction false} DecodesFrames(g: Aead, x: Sealing, i: nat)
    requires x.Valid() && Opens(g, x) && i < |x.pieces|
    ensures DecodeFrames(g, x.Frames(g, i), i) == Decoded(true, Joined(x.pieces[i..]))
    decreases |x.pieces| - i
  {
    var s, rest := x.Frames(g, i), x.Frames(g, i + 1);
    FrameParses(g, x, i, s, rest);
    assert x.pieces[i..][1..] == x.pieces[i + 1..];
    if i + 1 < |x.pieces| {
      DecodesFrames(g, x, i + 1);
      assert rest == x.Frame(g, i + 1) + x.Frames(g, i + 2);
    }
  }

  /** Decrypting what was encrypted returns it, whatever the plaintext, the nonces and the key. */
  lemma RoundTrip(g: Aead, plain: Bytes, nonces: seq<Bytes>)
    requires Correct(g) && Sealing(Chunks(plain), nonces).Valid()
    ensures Decode(g, Sealing(Chunks(plain), nonces).Stream(g)) == Decoded(true, plain)
  {
    var x := Sealing(Chunks(plain), nonces);
    ChunkShape(plain);
    DecodesFrames(g, x, 0);
    assert x.pieces[0..] == x.pieces;
    assert x.Stream(g)[HEADER..] == x.Frames(g, 0);
    assert x.Stream(g)[..4] == MAGIC;
  }

  lemma {:induction false} FramesLength(g: Aead, x: Sealing, i: nat)
    requires x.Valid() && Opens(g, x) && i <= |x.pieces|
    ensures |x.Frames(g, i)| == 32 * (|x.pieces| - i) + |Joined(x.pieces[i..])|
    decreases |x.pieces| - i
  {
    if i < |x.pieces| {
      FramesLength(g, x, i + 1);
      assert x.pieces[i..][1..] == x.pieces[i + 1..];
    }
  }

  /** Four bytes of magic, the chunk size in four, 32 bytes per chunk of 65536, and the plaintext. */
  lemma StreamLength(g: Aead, plain: Bytes, nonces: seq<Bytes>)
    requires Correct(g) && Sealing(Chunks(plain), nonces).Valid()
    ensures var stream := Sealing(Chunks(plain), nonces).Stream(g);
      && |stream| == 8 + 32 * (if plain == [] then 1 else (|plain| + 65535) / 65536) + |plain|
      && stream[..4] == [68, 83, 66, 49] && Number(stream[4..8]) == 65536
  {
    var x := Sealing(Chunks(plain), nonces);
    ChunkShape(plain);
    FramesLength(g, x, 0);
    assert x.pieces[0..] == x.pieces;
    var size: Bytes, three: Bytes, two: Bytes, one: Bytes := [0, 1, 0, 0], [0, 1, 0], [0, 1], [0];
    assert x.Stream(g)[4..8] == size && size[..3] == three && three[..2] == two && two[..1] == one;
    assert Number(one) == 0 && Number(two) == 1 && Number(three) == 256;
  }

  /** `written` is what the pieces from `i` up to `k` hold. */
  ghost predicate Upto(x: Sealing, i: nat, k: nat, written: Bytes) {
    i <= k <= |x.pieces| && written == Joined(x.pieces[i..k])
  }

  /** What opens as the i-th chunk is the i-th chunk, and it comes last exactly where it should. */
  lemma GenuineChunk(g: Aead, x: Sealing, i: nat, nonce: Bytes, ct: Bytes, final: bool)
    requires x.Valid() && Opens(g, x) && OpensNothingElse(g, x)
    requires i < |x.pieces| <= WRAP && g.open(nonce, ct, ChunkAad(i, final)).Some?
    ensures nonce == x.nonces[i] && ct == x.Sealed(g, i) && final == (i + 1 == |x.pieces|)
  {
    var aad := ChunkAad(i, final);
    var j :| 0 <= j < |x.pieces| && nonce == x.nonces[j] && ct == x.Sealed(g, j) && aad == x.Aad(j);
    ChunkAadInjective(i, final, j, j + 1 == |x.pieces|);
  }

  /** Either the parser stops before the next chunk, or that chunk is genuine and the parser goes on behind it. */
  lemma OneFrame(g: Aead, x: Sealing, i: nat, s: Bytes) returns (next: Option<Bytes>)
    requires x.Valid() && Opens(g, x) && OpensNothingElse(g, x)
    requires i < |x.pieces| <= WRAP
    ensures next == None ==> DecodeFrames(g, s, i) == FAILED
    ensures next.Some? ==>
      && s == x.Frame(g, i) + next.value && |next.value| < |s|
      && (next.value == [] <==> i + 1 == |x.pieces|)
      && DecodeFrames(g, s, i)
         == if next.value == [] then Decoded(true, x.pieces[i])
           else DecodeFrames(g, next.value, i + 1).After(x.pieces[i])
  {
    next := None;
    if |s| >= NONCE + 4 {
      var size := Number(s[NONCE..NONCE + 4]);
      if |s| >= NONCE + 4 + size {
        var rest := s[NONCE + 4 + size..];
        var nonce, ct, aad := s[..NONCE], s[NONCE + 4..NONCE + 4 + size], ChunkAad(i, rest == []);
        if g.open(nonce, ct, aad).Some? {
          GenuineChunk(g, x, i, nonce, ct, rest == []);
          ParsesAsFrame(g, x, i, s, rest);
          next := Some(rest);
        }
      }
    }
  }

  lemma UptoExtends(x: Sealing, i: nat, k: nat, written: Bytes)
    requires Upto(x, i + 1, k, written)
    ensures Upto(x, i, k, x.pieces[i] + written)
  {
    assert x.pieces[i..k][1..] == x.pieces[i + 1..k];
  }

  lemma {:induction false} TamperedFrames(g: Aead, x: Sealing, i: nat, s: Bytes) returns (k: nat)
    requires x.Valid() && Opens(g, x) && OpensNothingElse(g, x)
    requires i < |x.pieces| <= WRAP
    ensures DecodeFrames(g, s, i).ok <==> s == x.Frames(g, i)
    ensures Upto(x, i, k, DecodeFrames(g, s, i).written)
    ensures DecodeFrames(g, s, i).ok <==> k == |x.pieces|
    decreases |s|
  {
    DecodesFrames(g, x, i);
    var next := OneFrame(g, x, i, s);
    k := i;
    if next.Some? {
      var rest := next.value;
      k := i + 1;
      if rest != [] {
        k := TamperedFrames(g, x, i + 1, rest);
        UptoExtends(x, i, k, DecodeFrames(g, rest, i + 1).written);
      } else {
        UptoExtends(x, i, k, []);
      }
    }
  }

  lemma StreamSplits(g: Aead, x: Sealing)
    requires |x.pieces| == |x.nonces|
    ensures |x.Stream(g)| >= HEADER && x.Stream(g)[..4] == MAGIC && x.Stream(g)[HEADER..] == x.Frames(g, 0)
  {
  }

  lemma TamperedStream(g: Aead, x: Sealing, s: Bytes) returns (k: nat)
    requires x.Valid() && Opens(g, x) && OpensNothingElse(g, x) && |x.pieces| <= WRAP
    ensures Decode(g, s).ok <==> |s| >= HEADER && s[..4] == MAGIC && s[HEADER..] == x.Frames(g, 0)
    ensures k <= |x.pieces| && Decode(g, s).written == Joined(x.pieces[..k])
    ensures Decode(g, s).ok <==> k == |x.pieces|
  {
    if |s| >= HEADER && s[..4] == MAGIC {
      k := TamperedFrames(g, x, 0, s[HEADER..]);
      assert x.pieces[0..k] == x.pieces[..k];
    } else {
      k := 0;
      assert x.pieces[..0] == [];
    }
  }

  /**
   * Under a key that sealed one stream, decryption accepts that stream and no other input, apart from the four
   * chunk-size bytes, which it ignores. Whatever it wrote before giving up is a proper prefix of whole chunks.
   */
  lemma TamperEvident(g: Aead, plain: Bytes, nonces: seq<Bytes>, s: Bytes)
    requires Sealing(Chunks(plain), nonces).Valid() && |Chunks(plain)| <= WRAP
    requires Opens(g, Sealing(Chunks(plain), nonces)) && OpensNothingElse(g, Sealing(Chunks(plain), nonces))
    ensures var stream := Sealing(Chunks(plain), nonces).Stream(g);
            Decode(g, s).ok <==> |s| >= HEADER && s[..4] == stream[..4] && s[HEADER..] == stream[HEADER..]
    ensures Decode(g, s).ok ==> Decode(g, s).written == plain
    ensures !Decode(g, s).ok ==>
      exists k :: 0 <= k < |Chunks(plain)| && Decode(g, s).written == Joined(Chunks(plain)[..k])
  {
    var x := Sealing(Chunks(plain), nonces);
    ChunkShape(plain);
    StreamSplits(g, x);
    var k := TamperedStream(g, x, s);
    assert x.pieces[..|x.pieces|] == x.pieces;
  }

  /** A key that sealed nothing accepts nothing, and not a byte is written. */
  lemma WrongKey(g: Aead, s: Bytes)
    requires forall nonce, ct, aad :: g.open(nonce, ct, aad) == None
    ensures Decode(g, s) == FAILED
  {
  }

  method EncryptBytes(g: Aead, plain: Bytes) returns (w: Bytes)
    ensures exists nonces :: Sealing(Chunks(plain), nonces).Valid() && w == Sealing(Chunks(plain), nonces).Stream(g)
    ensures Correct(g) ==> Decode(g, w) == Decoded(true, plain)
  {
    w := EncryptStream(g, plain);
    ghost var nonces :| Sealing(Chunks(plain), nonces).Valid() && w == Sealing(Chunks(plain), nonces).Stream(g);
    if Correct(g) { RoundTrip(g, plain, nonces); }
  }

  method DecryptBytes(g: Aead, s: Bytes) returns (plain: Option<Bytes>)
    ensures plain == if Decode(g, s).ok then Some(Decode(g, s).written) else None
  {
    var ok, w := DecryptStream(g, s);
    plain := if ok then Some(w) else None;
  }

  // --- Key wrapping ---

  function UnwrapKey(kek: Aead, wrapped: Bytes): Option<Bytes> {
    if |wrapped| < NONCE then None else kek.open(wrapped[..NONCE], wrapped[NONCE..], [])
  }

  /** The wrapped key is the nonce followed by the sealed key, and unwraps to the key again. */
  method WrapKey(kek: Aead, dek: Bytes) returns (wrapped: Bytes)
    ensures |wrapped| >= NONCE && wrapped[NONCE..] == kek.seal(wrapped[..NONCE], dek, [])
    ensures Correct(kek) ==> |wrapped| == NONCE + |dek| + TAG && UnwrapKey(kek, wrapped) == Some(dek)
  {
    var nonce := RandomBytes(NONCE);
    var ct := kek.seal(nonce, dek, []);
    wrapped := nonce + ct;
    assert wrapped[..NONCE] == nonce && wrapped[NONCE..] == ct;
  }
}
