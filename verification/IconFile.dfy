/** The writer of multi-size icon files: a header, a directory with one entry for each image, and the bytes of
    the images one after the other. Fields are little-endian, and writing a number that does not fit throws. */
module IconFile {
  import opened Wrappers

  type Byte = b: int | 0 <= b < 256

  datatype Image = Image(width: int, height: int, buffer: seq<Byte>)

  const HEADER_SIZE := 6
  const ENTRY_SIZE := 16

  /** The `n` bytes of a number, lowest first. */
  function Le(v: nat, n: nat): (bytes: seq<Byte>)
    ensures |bytes| == n
  {
    if n == 0 then [] else [v % 256] + Le(v / 256, n - 1)
  }

  function ReadLe(bytes: seq<Byte>): nat {
    if bytes == [] then 0 else bytes[0] + 256 * ReadLe(bytes[1..])
  }

  function Pow256(n: nat): nat {
    if n == 0 then 1 else 256 * Pow256(n - 1)
  }

  lemma {:induction false} ReadsBack(v: nat, n: nat)
    requires v < Pow256(n)
    ensures ReadLe(Le(v, n)) == v
  {
    if n > 0 {
      ReadsBack(v / 256, n - 1);
      assert Le(v, n)[1..] == Le(v / 256, n - 1);
    }
  }

  lemma NextByte(before: seq<Byte>, v: nat, n: nat)
    requires n > 0
    ensures before + [v % 256] + Le(v / 256, n - 1) == before + Le(v, n)
  {
  }

  /** `buffer.writeUIntLE` of `n` bytes at `at`; fails for a number that has no such field. */
  method Write(buffer: array<Byte>, value: int, at: nat, n: nat) returns (ok: bool)
    requires at + n <= buffer.Length && n <= 4
    modifies buffer
    ensures ok <==> 0 <= value < Pow256(n)
    ensures ok ==> buffer[at..at + n] == Le(value, n)
    ensures forall k :: 0 <= k < buffer.Length && !(at <= k < at + n) ==> buffer[k] == old(buffer[k])
  {
    ok := 0 <= value < Pow256(n);
    if !ok { return; }
    var rest, k := value, 0;
    while k < n
      invariant 0 <= k <= n && 0 <= rest
      invariant buffer[at..at + k] + Le(rest, n - k) == Le(value, n)
      invariant forall j :: 0 <= j < buffer.Length && !(at <= j < at + n) ==> buffer[j] == old(buffer[j])
    {
      ghost var before := buffer[at..at + k];
      buffer[at + k] := rest % 256;
      assert buffer[at..at + k + 1] == before + [rest % 256];
      NextByte(before, rest, n - k);
      rest, k := rest / 256, k + 1;
    }
  }

  // ---- the file ----

  /** The byte of a dimension: zero stands for 256 and more. */
  function Dimension(pixels: int): int {
    if pixels >= 256 then 0 else pixels
  }

  function HeaderBytes(count: nat): (bytes: seq<Byte>)
    ensures |bytes| == HEADER_SIZE
  {
    Le(0, 2) + Le(1, 2) + Le(count, 2)
  }

  function EntryBytes(image: Image, offset: nat): (bytes: seq<Byte>)
    requires image.width >= 0 && image.height >= 0
    ensures |bytes| == ENTRY_SIZE
  {
    Le(Dimension(image.width), 1) + Le(Dimension(image.height), 1) + Le(0, 1) + Le(0, 1) + Le(1, 2) + Le(32, 2)
    + Le(|image.buffer|, 4) + Le(offset, 4)
  }

  /** Where the bytes of image `i` begin. */
  function OffsetOf(images: seq<Image>, i: nat): nat
    requires i <= |images|
  {
    if i == 0 then HEADER_SIZE + |images| * ENTRY_SIZE else OffsetOf(images, i - 1) + |images[i - 1].buffer|
  }

  /** The image and its place fit the fields of an entry. */
  predicate FitsEntry(images: seq<Image>, i: nat)
    requires i < |images|
  {
    images[i].width >= 0 && images[i].height >= 0 && |images[i].buffer| < Pow256(4) && OffsetOf(images, i) < Pow256(4)
  }

  predicate Fits(images: seq<Image>) {
    |images| < Pow256(2) && forall i :: 0 <= i < |images| ==> FitsEntry(images, i)
  }

  /** The first `count` entries of the directory. */
  function Directory(images: seq<Image>, count: nat): (bytes: seq<Byte>)
    requires count <= |images| && forall i :: 0 <= i < count ==> FitsEntry(images, i)
    ensures |bytes| == count * ENTRY_SIZE
  {
    if count == 0 then []
    else
      assert FitsEntry(images, count - 1);
      Directory(images, count - 1) + EntryBytes(images[count - 1], OffsetOf(images, count - 1))
  }

  function Bodies(images: seq<Image>, count: nat): seq<Byte>
    requires count <= |images|
  {
    if count == 0 then [] else Bodies(images, count - 1) + images[count - 1].buffer
  }

  function File(images: seq<Image>): seq<Byte>
    requires Fits(images)
  {
    HeaderBytes(|images|) + Directory(images, |images|) + Bodies(images, |images|)
  }

  method WriteHeader(count: nat) returns (r: Result<seq<Byte>>)
    ensures if count < Pow256(2) then r == Ok(HeaderBytes(count)) else r.Err?
  {
    var header := new Byte[HEADER_SIZE](_ => 0);
    var ok := Write(header, 0, 0, 2);
    var first := header[0..2];
    ok := Write(header, 1, 2, 2);
    assert header[0..2] == first;
    var second := header[2..4];
    ok := Write(header, count, 4, 2);
    if !ok { return Err("ERR_OUT_OF_RANGE"); }
    assert header[0..2] == first && header[2..4] == second;
    assert header[..] == header[0..2] + header[2..4] + header[4..6];
    r := Ok(header[..]);
  }

  /** Appends a field to what has been written of a buffer. */
  method WriteNext(buffer: array<Byte>, value: int, at: nat, n: nat, ghost written: seq<Byte>) returns (ok: bool)
    requires at + n <= buffer.Length && n <= 4 && buffer[..at] == written
    modifies buffer
    ensures ok <==> 0 <= value < Pow256(n)
    ensures ok ==> buffer[..at + n] == written + Le(value, n)
  {
    ok := Write(buffer, value, at, n);
    assert buffer[..at] == written;
    assert buffer[..at + n] == buffer[..at] + buffer[at..at + n];
  }

  method WriteEntry(image: Image, offset: nat) returns (r: Result<seq<Byte>>)
    ensures if image.width >= 0 && image.height >= 0 && |image.buffer| < Pow256(4) && offset < Pow256(4)
            then r == Ok(EntryBytes(image, offset)) else r.Err?
  {
    var entry := new Byte[ENTRY_SIZE](_ => 0);
    if image.width < 0 || image.height < 0 { return Err("ERR_OUT_OF_RANGE"); }
    var w, h := if image.width >= 256 then 0 else image.width, if image.height >= 256 then 0 else image.height;
    var ok := WriteNext(entry, w, 0, 1, []);
    ok := WriteNext(entry, h, 1, 1, Le(w, 1));
    ghost var size := Le(w, 1) + Le(h, 1);
    ok := WriteNext(entry, 0, 2, 1, size);
    ok := WriteNext(entry, 0, 3, 1, size + Le(0, 1));
    ghost var shape := size + Le(0, 1) + Le(0, 1);
    ok := WriteNext(entry, 1, 4, 2, shape);
    ok := WriteNext(entry, 32, 6, 2, shape + Le(1, 2));
    ghost var fixed := shape + Le(1, 2) + Le(32, 2);
    ok := WriteNext(entry, |image.buffer|, 8, 4, fixed);
    if !ok { return Err("ERR_OUT_OF_RANGE"); }
    ok := WriteNext(entry, offset, 12, 4, fixed + Le(|image.buffer|, 4));
    if !ok { return Err("ERR_OUT_OF_RANGE"); }
    assert entry[..] == entry[..16];
    r := Ok(entry[..]);
  }

  method BuildIco(images: seq<Image>) returns (r: Result<seq<Byte>>)
    ensures if Fits(images) then r == Ok(File(images)) else r.Err?
  {
    var header := WriteHeader(|images|);
    if header.Err? { return header; }
    var offset := HEADER_SIZE + |images| * ENTRY_SIZE;
    var directory, bodies: seq<Byte> := [], [];
    for i := 0 to |images|
      invariant offset == OffsetOf(images, i)
      invariant forall j :: 0 <= j < i ==> FitsEntry(images, j)
      invariant directory == Directory(images, i) && bodies == Bodies(images, i)
    {
      var image := images[i];
      var entry := WriteEntry(image, offset);
      if entry.Err? {
        assert !FitsEntry(images, i);
        return entry;
      }
      directory := directory + entry.value;
      offset := offset + |image.buffer|;
      bodies := bodies + image.buffer;
    }
    r := Ok(header.value + directory + bodies);
  }

  // ---- reading it back ----

  /** What a reader finds in entry `i` of the directory. */
  function EntryAt(file: seq<Byte>, i: nat): seq<Byte>
    requires HEADER_SIZE + (i + 1) * ENTRY_SIZE <= |file|
  {
    file[HEADER_SIZE + i * ENTRY_SIZE..HEADER_SIZE + (i + 1) * ENTRY_SIZE]
  }

  function LengthIn(entry: seq<Byte>): nat
    requires |entry| == ENTRY_SIZE
  {
    ReadLe(entry[8..12])
  }

  function OffsetIn(entry: seq<Byte>): nat
    requires |entry| == ENTRY_SIZE
  {
    ReadLe(entry[12..16])
  }

  lemma {:induction false} DirectoryEntry(images: seq<Image>, count: nat, i: nat)
    requires Fits(images) && i < count <= |images| && FitsEntry(images, i)
    ensures Directory(images, count)[i * ENTRY_SIZE..(i + 1) * ENTRY_SIZE] == EntryBytes(images[i], OffsetOf(images, i))
  {
    assert FitsEntry(images, count - 1);
    var before, last := Directory(images, count - 1), EntryBytes(images[count - 1], OffsetOf(images, count - 1));
    if i == count - 1 {
      assert (before + last)[|before|..] == last;
    } else {
      DirectoryEntry(images, count - 1, i);
      assert (before + last)[i * ENTRY_SIZE..(i + 1) * ENTRY_SIZE] == before[i * ENTRY_SIZE..(i + 1) * ENTRY_SIZE];
    }
  }

  lemma {:induction false} BodiesEnd(images: seq<Image>, count: nat)
    requires count <= |images|
    ensures OffsetOf(images, count) == HEADER_SIZE + |images| * ENTRY_SIZE + |Bodies(images, count)|
  {
    if count > 0 { BodiesEnd(images, count - 1); }
  }

  lemma {:induction false} BodyOf(images: seq<Image>, count: nat, i: nat)
    requires i < count <= |images|
    ensures var start, body := |Bodies(images, i)|, images[i].buffer;
            start + |body| <= |Bodies(images, count)| && Bodies(images, count)[start..start + |body|] == body
  {
    var before, last := Bodies(images, count - 1), images[count - 1].buffer;
    if i < count - 1 {
      BodyOf(images, count - 1, i);
      SliceOfPrefix(before, last, |Bodies(images, i)|, |Bodies(images, i)| + |images[i].buffer|);
    } else {
      assert (before + last)[|before|..] == last;
    }
  }

  lemma SliceOfPrefix(a: seq<Byte>, b: seq<Byte>, lo: nat, hi: nat)
    requires lo <= hi <= |a|
    ensures (a + b)[lo..hi] == a[lo..hi]
  {
  }

  lemma EntryFields(image: Image, offset: nat)
    requires image.width >= 0 && image.height >= 0 && |image.buffer| < Pow256(4) && offset < Pow256(4)
    ensures LengthIn(EntryBytes(image, offset)) == |image.buffer| && OffsetIn(EntryBytes(image, offset)) == offset
  {
    var entry := EntryBytes(image, offset);
    assert entry[8..12] == Le(|image.buffer|, 4) && entry[12..16] == Le(offset, 4);
    ReadsBack(|image.buffer|, 4);
    ReadsBack(offset, 4);
  }

  lemma EntryInFile(images: seq<Image>, i: nat)
    requires Fits(images) && i < |images| && FitsEntry(images, i)
    ensures HEADER_SIZE + (i + 1) * ENTRY_SIZE <= |File(images)|
    ensures EntryAt(File(images), i) == EntryBytes(images[i], OffsetOf(images, i))
  {
    DirectoryEntry(images, |images|, i);
    EntryOf(HeaderBytes(|images|), Directory(images, |images|), Bodies(images, |images|), i);
  }

  /** An entry of a file is that entry of its directory. */
  lemma EntryOf(header: seq<Byte>, directory: seq<Byte>, bodies: seq<Byte>, i: nat)
    requires |header| == HEADER_SIZE && (i + 1) * ENTRY_SIZE <= |directory|
    ensures HEADER_SIZE + (i + 1) * ENTRY_SIZE <= |header + directory + bodies|
    ensures EntryAt(header + directory + bodies, i) == directory[i * ENTRY_SIZE..(i + 1) * ENTRY_SIZE]
  {
    MiddleSlice(header, directory, bodies, i * ENTRY_SIZE, (i + 1) * ENTRY_SIZE);
  }

  lemma BodyInFile(images: seq<Image>, i: nat)
    requires Fits(images) && i < |images|
    ensures var start := OffsetOf(images, i);
            start + |images[i].buffer| <= |File(images)|
            && File(images)[start..start + |images[i].buffer|] == images[i].buffer
  {
    BodyBehind(images, i, HeaderBytes(|images|), Directory(images, |images|));
  }

  lemma BodyBehind(images: seq<Image>, i: nat, header: seq<Byte>, directory: seq<Byte>)
    requires i < |images| && |header| + |directory| == HEADER_SIZE + |images| * ENTRY_SIZE
    ensures var file, start := header + directory + Bodies(images, |images|), OffsetOf(images, i);
            start + |images[i].buffer| <= |file| && file[start..start + |images[i].buffer|] == images[i].buffer
  {
    BodyOf(images, |images|, i);
    BodiesEnd(images, i);
    BodyAt(header, directory, Bodies(images, |images|), |Bodies(images, i)|, images[i].buffer);
  }

  /** What stands at `start` in the bodies stands behind the header and the directory in the file. */
  lemma BodyAt(header: seq<Byte>, directory: seq<Byte>, bodies: seq<Byte>, start: nat, body: seq<Byte>)
    requires start + |body| <= |bodies| && bodies[start..start + |body|] == body
    ensures var at := |header| + |directory| + start;
            at + |body| <= |header + directory + bodies| && (header + directory + bodies)[at..at + |body|] == body
  {
    LastSlice(header, directory, bodies, start, start + |body|);
  }

  /** The length and the offset in directory entry `i` select exactly the bytes of image `i`. */
  lemma EntrySelectsImage(images: seq<Image>, i: nat)
    requires Fits(images) && i < |images|
    ensures var file := File(images);
            && HEADER_SIZE + (i + 1) * ENTRY_SIZE <= |file|
            && var entry := EntryAt(file, i);
               && OffsetIn(entry) + LengthIn(entry) <= |file|
               && file[OffsetIn(entry)..OffsetIn(entry) + LengthIn(entry)] == images[i].buffer
  {
    assert FitsEntry(images, i);
    EntryInFile(images, i);
    EntryFields(images[i], OffsetOf(images, i));
    BodyInFile(images, i);
  }

  lemma MiddleSlice(a: seq<Byte>, b: seq<Byte>, c: seq<Byte>, lo: nat, hi: nat)
    requires lo <= hi <= |b|
    ensures (a + b + c)[|a| + lo..|a| + hi] == b[lo..hi]
  {
  }

  lemma LastSlice(a: seq<Byte>, b: seq<Byte>, c: seq<Byte>, lo: nat, hi: nat)
    requires lo <= hi <= |c|
    ensures (a + b + c)[|a| + |b| + lo..|a| + |b| + hi] == c[lo..hi]
  {
  }

  /** The regions of the images follow one another without a gap, from the end of the directory to the end of
      the file. */
  lemma RegionsFillTheFile(images: seq<Image>, i: nat, j: nat)
    requires Fits(images) && i < j < |images|
    ensures OffsetOf(images, 0) == HEADER_SIZE + |images| * ENTRY_SIZE
    ensures OffsetOf(images, i) + |images[i].buffer| == OffsetOf(images, i + 1) <= OffsetOf(images, j)
    ensures OffsetOf(images, |images| - 1) + |images[|images| - 1].buffer| == |File(images)|
  {
    OffsetsGrow(images, i + 1, j);
    BodiesEnd(images, |images|);
  }

  lemma {:induction false} OffsetsGrow(images: seq<Image>, i: nat, j: nat)
    requires i <= j <= |images|
    ensures OffsetOf(images, i) <= OffsetOf(images, j)
  {
    if i < j { OffsetsGrow(images, i, j - 1); }
  }

  /** The dimension that a reader makes of its byte. */
  function ReadDimension(b: int): int {
    if b == 0 then 256 else b
  }

  /** A dimension is read back exactly if it is between one and 256. */
  lemma DimensionsAreReadIff(image: Image, offset: nat)
    requires image.width >= 0 && image.height >= 0
    ensures var entry := EntryBytes(image, offset);
            && (ReadDimension(entry[0]) == image.width <==> 1 <= image.width <= 256)
            && (ReadDimension(entry[1]) == image.height <==> 1 <= image.height <= 256)
  {
    var w, h := Le(Dimension(image.width), 1), Le(Dimension(image.height), 1);
    assert EntryBytes(image, offset)[0] == w[0] && EntryBytes(image, offset)[1] == h[0];
  }

  /** The header tells the kind of file and the number of images. */
  lemma HeaderIsRead(images: seq<Image>)
    requires Fits(images)
    ensures var file := File(images);
            && |file| >= HEADER_SIZE
            && ReadLe(file[0..2]) == 0 && ReadLe(file[2..4]) == 1 && ReadLe(file[4..6]) == |images|
  {
    var file := File(images);
    ReadsBack(0, 2);
    ReadsBack(1, 2);
    ReadsBack(|images|, 2);
    assert file[0..2] == Le(0, 2) && file[2..4] == Le(1, 2) && file[4..6] == Le(|images|, 2);
  }

  lemma PlanesAndBits(image: Image, offset: nat)
    requires image.width >= 0 && image.height >= 0
    ensures EntryBytes(image, offset)[2..8] == [0, 0, 1, 0, 32, 0]
  {
    assert Le(0, 1) == [0] && Le(1, 2) == [1, 0] && Le(32, 2) == [32, 0];
  }

  /** Every directory entry tells of no palette, one plane and thirty-two bits for a pixel. */
  lemma PlanesAndBitsAreRead(images: seq<Image>, i: nat)
    requires Fits(images) && i < |images|
    ensures HEADER_SIZE + (i + 1) * ENTRY_SIZE <= |File(images)|
    ensures var entry := EntryAt(File(images), i);
            && entry[2] == 0 && entry[3] == 0 && ReadLe(entry[4..6]) == 1 && ReadLe(entry[6..8]) == 32
  {
    assert FitsEntry(images, i);
    EntryInFile(images, i);
    PlanesAndBits(images[i], OffsetOf(images, i));
    PlanesInEntry(EntryAt(File(images), i));
  }

  lemma PlanesInEntry(entry: seq<Byte>)
    requires |entry| == 16 && entry[2..8] == [0, 0, 1, 0, 32, 0]
    ensures entry[2] == 0 && entry[3] == 0 && ReadLe(entry[4..6]) == 1 && ReadLe(entry[6..8]) == 32
  {
    assert forall k :: 2 <= k < 8 ==> entry[k] == entry[2..8][k - 2];
    ReadsBack(1, 2);
    ReadsBack(32, 2);
    assert entry[4..6] == Le(1, 2) && entry[6..8] == Le(32, 2);
  }

  /** What has to fit: fewer than 65536 images, no negative dimension, and lengths and offsets below 4294967296. */
  lemma FitsIff(images: seq<Image>)
    ensures Fits(images) <==>
            && |images| < 65_536
            && forall i :: 0 <= i < |images| ==>
                 && images[i].width >= 0 && images[i].height >= 0 && |images[i].buffer| < 4_294_967_296
                 && OffsetOf(images, i) < 4_294_967_296
  {
    assert Pow256(2) == 65_536 && Pow256(4) == 4_294_967_296;
    assert forall i :: 0 <= i < |images| ==>
      (FitsEntry(images, i) <==>
         && images[i].width >= 0 && images[i].height >= 0 && |images[i].buffer| < 4_294_967_296
         && OffsetOf(images, i) < 4_294_967_296);
  }
}
