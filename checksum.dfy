/**
 * File checksums: the file's bytes are fed to a message digest in chunks of at most 1024 bytes,
 * and the digest is written out as lowercase hexadecimal, two characters per byte. The digest
 * algorithm (MD5, RFC 1321) is not modelled; it is the function `hash` the callers pass in,
 * applied to the whole content.
 */
module Checksum {
  import opened Wrappers
  import opened Paths
  import opened FileSystem

  const BufferSize: nat := 1024

  // ---------------------------------------------------------------- hexadecimal

  function HexDigit(d: nat): (c: char)
    requires d < 16
    ensures '0' <= c <= '9' || 'a' <= c <= 'f'
  {
    if d < 10 then (('0' as int) + d) as char else (('a' as int) + d - 10) as char
  }

  /** The value of a lowercase hexadecimal digit. */
  function HexValue(c: char): (r: Option<nat>)
    ensures r.Some? ==> r.value < 16 && HexDigit(r.value) == c
  {
    if '0' <= c <= '9' then Some(c as int - '0' as int)
    else if 'a' <= c <= 'f' then Some(c as int - 'a' as int + 10)
    else None
  }

  lemma HexValueOfDigit(d: nat)
    requires d < 16
    ensures HexValue(HexDigit(d)) == Some(d)
  {
  }

  /** Integer.toString(n, 16): n in base 16 with lowercase digits. */
  function Radix16(n: nat): string
    decreases n
  {
    if n < 16 then [HexDigit(n)] else Radix16(n / 16) + [HexDigit(n % 16)]
  }

  /**
   * Integer.toString((value & 0xff) + 0x100, 16).substring(1): the unsigned byte plus 256 is
   * three hexadecimal digits starting with '1', and dropping that '1' leaves exactly two
   * digits, the high half of the byte and then the low half.
   */
  function HexByte(b: bv8): (r: string)
    ensures |r| == 2 && r == [HexDigit(b as nat / 16), HexDigit(b as nat % 16)]
  {
    var n := b as nat + 0x100;
    assert Radix16(n) == [HexDigit(1), HexDigit(b as nat / 16), HexDigit(b as nat % 16)] by {
      assert n / 16 / 16 == 1 && n / 16 % 16 == b as nat / 16 && n % 16 == b as nat % 16;
      assert Radix16(n / 16) == Radix16(n / 16 / 16) + [HexDigit(n / 16 % 16)];
    }
    Radix16(n)[1..]
  }

  /** The digest bytes in order, each as two hexadecimal characters. */
  function HexEncode(bs: Bytes): (r: string)
    ensures |r| == 2 * |bs|
  {
    if bs == [] then "" else HexEncode(bs[..|bs| - 1]) + HexByte(bs[|bs| - 1])
  }

  /** Reads a hexadecimal string back into bytes, two characters at a time. */
  function HexDecode(s: string): Option<Bytes> {
    if s == [] then Some([])
    else if |s| == 1 then None
    else
      match (HexDecode(s[..|s| - 2]), HexValue(s[|s| - 2]), HexValue(s[|s| - 1]))
      case (Some(init), Some(hi), Some(lo)) => Some(init + [(hi * 16 + lo) as bv8])
      case _ => None
  }

  /** The two characters of a byte read back as its high and low halves. */
  lemma ByteDigits(b: bv8)
    ensures HexValue(HexByte(b)[0]) == Some(b as nat / 16) && HexValue(HexByte(b)[1]) == Some(b as nat % 16)
    ensures ((b as nat / 16) * 16 + b as nat % 16) as bv8 == b
  {
    HexValueOfDigit(b as nat / 16);
    HexValueOfDigit(b as nat % 16);
  }

  /** Decoding an encoding gives back the bytes: the hexadecimal form loses nothing. */
  lemma {:induction false} HexRoundTrip(bs: Bytes)
    ensures HexDecode(HexEncode(bs)) == Some(bs)
  {
    if bs != [] {
      var init := bs[..|bs| - 1];
      var b := bs[|bs| - 1];
      assert bs == init + [b];
      var s := HexEncode(bs);
      assert s == HexEncode(init) + HexByte(b);
      HexRoundTrip(init);
      assert s[..|s| - 2] == HexEncode(init);
      assert s[|s| - 2] == HexByte(b)[0] && s[|s| - 1] == HexByte(b)[1];
      ByteDigits(b);
      DecodeStep(s, init, b);
    }
  }

  /** One decoding step: two more digits that read back as a byte's halves append that byte. */
  lemma DecodeStep(s: string, init: Bytes, b: bv8)
    requires |s| >= 2 && HexDecode(s[..|s| - 2]) == Some(init)
    requires HexValue(s[|s| - 2]) == Some(b as nat / 16) && HexValue(s[|s| - 1]) == Some(b as nat % 16)
    requires ((b as nat / 16) * 16 + b as nat % 16) as bv8 == b
    ensures HexDecode(s) == Some(init + [b])
  {
  }

  /** Two digests with the same hexadecimal string are the same digest. */
  lemma HexInjective(a: Bytes, b: Bytes)
    requires HexEncode(a) == HexEncode(b)
    ensures a == b
  {
    HexRoundTrip(a);
    HexRoundTrip(b);
  }

  // ---------------------------------------------------------------- streams and digests

  /** A FileInputStream over a file's content: `pos` bytes have been read so far. */
  class FileInputStream {
    const content: Bytes
    var pos: nat

    constructor (content: Bytes)
      ensures this.content == content && pos == 0
    {
      this.content := content;
      pos := 0;
    }

    /**
     * read(buffer): -1 at end of stream; otherwise at least one and at most buffer.length of
     * the next bytes, how many being up to the stream, copied to the front of the buffer.
     */
    method Read(buffer: array<bv8>) returns (n: int)
      requires pos <= |content| && buffer.Length > 0
      modifies this`pos, buffer
      ensures pos <= |content|
      ensures old(pos) == |content| ==> n == -1 && pos == old(pos)
      ensures old(pos) < |content| ==>
        1 <= n <= buffer.Length && pos == old(pos) + n && buffer[..n] == content[old(pos)..pos]
    {
      if pos == |content| {
        return -1;
      }
      var start := pos;
      var k: int :| 1 <= k <= buffer.Length && start + k <= |content|;
      var i := 0;
      while i < k
        invariant 0 <= i <= k
        invariant buffer[..i] == content[start..start + i]
      {
        buffer[i] := content[start + i];
        assert buffer[..i + 1] == buffer[..i] + [buffer[i]];
        i := i + 1;
      }
      pos := start + k;
      n := k;
    }
  }

  function Concat(chunks: seq<Bytes>): Bytes {
    if chunks == [] then [] else Concat(chunks[..|chunks| - 1]) + chunks[|chunks| - 1]
  }

  /** A MessageDigest: `fed` is every byte given to update, `chunks` the updates one by one. */
  class MessageDigest {
    var fed: Bytes
    ghost var chunks: seq<Bytes>

    constructor ()
      ensures fed == [] && chunks == []
    {
      fed := [];
      chunks := [];
    }

    /** update(buffer, off, len): the digest takes in buffer[off..off + len]. */
    method Update(buffer: array<bv8>, off: nat, len: nat)
      requires off + len <= buffer.Length
      modifies this
      ensures fed == old(fed) + buffer[off..off + len]
      ensures chunks == old(chunks) + [buffer[off..off + len]]
    {
      fed := fed + buffer[off..off + len];
      chunks := chunks + [buffer[off..off + len]];
    }

    /** digest(): the algorithm applied to everything fed in. */
    method Digest(hash: Bytes -> Bytes) returns (d: Bytes)
      ensures d == hash(fed)
    {
      d := hash(fed);
    }
  }

  /** What getChecksum yields for a path: the hexadecimal digest of its bytes, or the exception. */
  function ChecksumOf(files: map<Path, Bytes>, filename: Path, hash: Bytes -> Bytes): Result<string, IOError> {
    if filename in files then Ok(HexEncode(hash(files[filename]))) else Err(NoSuchFile)
  }

  /**
   * createChecksum: reads the file through a 1024-byte buffer and updates the digest with
   * every positive read, until the stream reports its end. The chunks fed are each at most
   * 1024 bytes and, in order, make up the whole file, so the result is the digest of the file.
   */
  method CreateChecksum(fs: FileSystem, filename: Path, hash: Bytes -> Bytes)
    returns (r: Result<Bytes, IOError>, ghost chunks: seq<Bytes>)
    ensures filename !in fs.files ==> r == Err(NoSuchFile)
    ensures filename in fs.files ==> r == Ok(hash(fs.files[filename]))
    ensures filename in fs.files ==>
      Concat(chunks) == fs.files[filename] &&
      forall i :: 0 <= i < |chunks| ==> 0 < |chunks[i]| <= BufferSize
  {
    if filename !in fs.files {
      return Err(NoSuchFile), [];
    }
    var fis := new FileInputStream(fs.files[filename]);
    var buffer := new bv8[BufferSize];
    var complete := new MessageDigest();
    var numRead := ReadAndUpdate(fis, buffer, complete);
    while numRead != -1
      invariant DigestOfRead(fis, complete) && numRead >= -1
      invariant numRead == -1 ==> fis.pos == |fis.content|
      decreases |fis.content| - fis.pos, numRead + 1
    {
      numRead := ReadAndUpdate(fis, buffer, complete);
    }
    assert fis.content[..fis.pos] == fis.content;
    var digest := complete.Digest(hash);
    r := Ok(digest);
    chunks := complete.chunks;
  }

  /**
   * The digest has taken in exactly the bytes read from the stream so far, in chunks of at
   * most one buffer each.
   */
  ghost predicate DigestOfRead(fis: FileInputStream, complete: MessageDigest)
    reads fis, complete
  {
    fis.pos <= |fis.content| &&
    complete.fed == fis.content[..fis.pos] &&
    Concat(complete.chunks) == complete.fed &&
    forall i :: 0 <= i < |complete.chunks| ==> 0 < |complete.chunks[i]| <= BufferSize
  }

  /** One round of createChecksum's loop: a read, and an update with the bytes read if there are any. */
  method ReadAndUpdate(fis: FileInputStream, buffer: array<bv8>, complete: MessageDigest) returns (numRead: int)
    requires buffer.Length == BufferSize && DigestOfRead(fis, complete)
    modifies fis`pos, buffer, complete
    ensures DigestOfRead(fis, complete) && numRead >= -1
    ensures old(fis.pos) == |fis.content| ==> numRead == -1 && fis.pos == old(fis.pos)
    ensures old(fis.pos) < |fis.content| ==> numRead >= 1 && fis.pos > old(fis.pos)
  {
    ghost var before := complete.chunks;
    numRead := fis.Read(buffer);
    if numRead > 0 {
      complete.Update(buffer, 0, numRead);
      assert complete.chunks[..|before|] == before;
      assert fis.content[..fis.pos] == fis.content[..old(fis.pos)] + fis.content[old(fis.pos)..fis.pos];
    }
  }

  /** getChecksum: the digest of the file, two lowercase hexadecimal characters per byte. */
  method GetChecksum(fs: FileSystem, filename: Path, hash: Bytes -> Bytes) returns (r: Result<string, IOError>)
    ensures r == ChecksumOf(fs.files, filename, hash)
  {
    var b, chunks := CreateChecksum(fs, filename, hash);
    if b.Err? {
      return Err(b.error);
    }
    var result := "";
    var i := 0;
    while i < |b.value|
      invariant 0 <= i <= |b.value|
      invariant result == HexEncode(b.value[..i])
    {
      assert b.value[..i + 1][..i] == b.value[..i];
      result := result + HexByte(b.value[i]);
      i := i + 1;
    }
    assert b.value[..i] == b.value;
    r := Ok(result);
  }

  /** Equal checksum strings mean equal digests of the two files' contents. */
  lemma SameChecksum(files: map<Path, Bytes>, a: Path, files': map<Path, Bytes>, b: Path, hash: Bytes -> Bytes)
    requires ChecksumOf(files, a, hash).Ok? && ChecksumOf(files, a, hash) == ChecksumOf(files', b, hash)
    ensures a in files && b in files' && hash(files[a]) == hash(files'[b])
  {
    HexInjective(hash(files[a]), hash(files'[b]));
  }
}
