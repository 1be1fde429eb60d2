/** compute_hash in boto.utils: hashing a file in chunks. */
module ComputeHash {
  import opened Wrappers

  newtype byte = b: int | 0 <= b < 256

  /** A file opened in binary mode, with its position. */
  class File {
    const content: seq<byte>
    var pos: nat
    // the furthest position anything was read up to
    ghost var furthest: nat

    constructor (content: seq<byte>)
      ensures this.content == content && pos == 0 && furthest == 0
    {
      this.content := content;
      pos, furthest := 0, 0;
    }

    // The bytes not read yet. A position past the end leaves none.
    function Rest(): seq<byte>
      reads this
    {
      if pos <= |content| then content[pos..] else []
    }

    // read(n) may return fewer bytes than asked for, but returns none only at
    // the end of the file; with a negative n it reads all that is left.
    method Read(n: int) returns (s: seq<byte>)
      modifies this
      ensures pos == old(pos) + |s|
      ensures s <= old(Rest()) && Rest() == old(Rest())[|s|..]
      ensures n < 0 ==> Rest() == []
      ensures n >= 0 ==> |s| <= n
      ensures n != 0 && s == [] ==> Rest() == []
      ensures furthest == if s == [] || old(furthest) > pos then old(furthest) else pos
    {
      var rest := Rest();
      var k := |rest|;
      if 0 <= n && rest != [] {
        k :| 0 <= k <= n && k <= |rest| && (n > 0 ==> k > 0);
      }
      s := rest[..k];
      pos := pos + k;
      assert k > 0 ==> content[pos..] == rest[k..];
      if s != [] && furthest < pos {
        furthest := pos;
      }
    }

    method Seek(to: nat)
      modifies this`pos
      ensures pos == to
    {
      pos := to;
    }
  }

  /** A hash object: what it has been fed so far. */
  class Hash {
    var fed: seq<byte>

    constructor ()
      ensures fed == []
    {
      fed := [];
    }

    method Update(s: seq<byte>)
      modifies this
      ensures fed == old(fed) + s
    {
      fed := fed + s;
    }
  }

  // The bytes to hash out of those left in the file. A positive size limits
  // them as long as the buffer size is positive; a size of 0 or None does not.
  function Hashed(rest: seq<byte>, bufSize: int, size: Option<int>): seq<byte> {
    var n := if size.Some? then size.value else 0;
    if n > 0 && bufSize > 0 then rest[..if n < |rest| then n else |rest|]
    else if n >= 0 && bufSize == 0 then []
    else rest
  }

  lemma HashedPrefix(rest: seq<byte>, fed: seq<byte>, bufSize: int, size: Option<int>)
    requires fed <= rest
    requires var n := if size.Some? then size.value else 0;
      if n > 0 && bufSize > 0 then |fed| == n || (|fed| <= n && fed == rest)
      else if n >= 0 && bufSize == 0 then fed == []
      else fed == rest
    ensures fed == Hashed(rest, bufSize, size)
  {}

  // What is passed to read() with left bytes still wanted, where 0 is a size
  // that counts as false.
  function Request(left: int, bufSize: int): int {
    if left != 0 && left < bufSize then left else bufSize
  }

  // s is the chunk of rest from i on, and after is what comes after it.
  ghost predicate ChunkAt(rest: seq<byte>, i: nat, s: seq<byte>, after: seq<byte>) {
    i + |s| + |after| == |rest| && rest[..i] + s + after == rest
  }

  // s is what a read of n bytes may return, if after is left in the file then.
  predicate Answers(n: int, s: seq<byte>, after: seq<byte>) {
    (n < 0 ==> after == []) && (n >= 0 ==> |s| <= n) && (n != 0 && s == [] ==> after == [])
  }

  lemma NextChunk(rest: seq<byte>, i: nat, s: seq<byte>, before: seq<byte>, after: seq<byte>)
    requires i <= |rest| && before == rest[i..] && s <= before && after == before[|s|..]
    ensures ChunkAt(rest, i, s, after)
  {}

  lemma ChunkFed(rest: seq<byte>, i: nat, s: seq<byte>, after: seq<byte>)
    requires ChunkAt(rest, i, s, after)
    ensures rest[..i] + s == rest[..i + |s|] && after == rest[i + |s|..]
  {}

  method ReadChunk(fp: File, n: int, ghost rest: seq<byte>, ghost i: nat) returns (s: seq<byte>)
    requires i <= |rest| && fp.Rest() == rest[i..]
    modifies fp
    ensures ChunkAt(rest, i, s, fp.Rest()) && Answers(n, s, fp.Rest())
    ensures fp.pos == old(fp.pos) + |s| && (fp.furthest == old(fp.furthest) || fp.furthest == fp.pos)
  {
    s := fp.Read(n);
    NextChunk(rest, i, s, rest[i..], fp.Rest());
  }

  // The loop: the hash is fed exactly the bytes it should be, whatever the
  // chunks, and none is read beyond them.
  method Feed(fp: File, hashObj: Hash, bufSize: int, size: Option<int>)
    requires hashObj.fed == []
    modifies fp, hashObj
    ensures hashObj.fed == Hashed(old(fp.Rest()), bufSize, size)
    ensures fp.pos == old(fp.pos) + |hashObj.fed|
    ensures fp.furthest <= old(fp.furthest) || fp.furthest <= fp.pos
  {
    ghost var rest, i := fp.Rest(), 0;
    ghost var n := if size.Some? then size.value else 0;
    var left := if size.Some? then size.value else 0;
    var s := ReadChunk(fp, Request(left, bufSize), rest, 0);
    while s != []
      invariant ChunkAt(rest, i, s, fp.Rest())
      invariant fp.pos == old(fp.pos) + i + |s|
      invariant hashObj.fed == rest[..i]
      invariant fp.furthest <= old(fp.furthest) || fp.furthest <= fp.pos
      invariant if n > 0 then left == n - i > 0 else left == n
      invariant Answers(Request(left, bufSize), s, fp.Rest()) && (Request(left, bufSize) == 0 ==> i == 0)
      decreases |rest| - i
    {
      ChunkFed(rest, i, s, fp.Rest());
      hashObj.Update(s);
      i := i + |s|;
      if left != 0 {
        left := left - |s|;
        if left <= 0 {
          break;
        }
      }
      s := ReadChunk(fp, Request(left, bufSize), rest, i);
    }
    HashedPrefix(rest, hashObj.fed, bufSize, size);
  }

  method ComputeHash<D>(fp: File, bufSize: int, size: Option<int>, digest: seq<byte> -> D)
    returns (hexDigest: D, dataSize: int)
    modifies fp
    ensures hexDigest == digest(Hashed(old(fp.Rest()), bufSize, size))
    ensures dataSize == |Hashed(old(fp.Rest()), bufSize, size)|
    ensures fp.pos == old(fp.pos)
    ensures fp.furthest <= old(fp.furthest) || fp.furthest <= fp.pos + dataSize
  {
    var hashObj := new Hash();
    var spos := fp.pos;
    Feed(fp, hashObj, bufSize, size);
    hexDigest := digest(hashObj.fed);
    dataSize := fp.pos - spos;
    fp.Seek(spos);
  }

  // With a positive buffer size: at most size bytes, all that are left if
  // there are fewer, and all of them if no size or a size of 0 is given.
  lemma HashedBytes(rest: seq<byte>, bufSize: int, size: Option<int>)
    requires bufSize > 0
    ensures Hashed(rest, bufSize, size) <= rest
    ensures Hashed(rest, bufSize, size) == rest <==> size.None? || size.value <= 0 || size.value >= |rest|
    ensures size.Some? && 0 < size.value < |rest| ==> |Hashed(rest, bufSize, size)| == size.value
  {
    if size.Some? && 0 < size.value < |rest| {
      assert |rest[..size.value]| != |rest|;
    }
  }

  // With a buffer size of 0 nothing is read unless the size is negative; a
  // negative buffer size, or size, reads all there is.
  lemma HashedUnbuffered(rest: seq<byte>, bufSize: int, size: Option<int>)
    requires bufSize <= 0
    ensures Hashed(rest, bufSize, size) in {[], rest}
    ensures Hashed(rest, bufSize, size) == [] <==> rest == [] || (bufSize == 0 && (size.None? || size.value >= 0))
  {}
}
