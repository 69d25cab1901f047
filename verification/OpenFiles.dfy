/** Reading a list of files as one stream, from a position on. */
module OpenFiles {
  import opened Common

  type Bytes = seq<bv8>

  /** An open file and the offset it was sought to. */
  datatype Reader = Reader(name: string, offset: int)

  type Files = map<string, Bytes>

  /** What a reader will deliver. */
  function Content(files: Files, r: Reader): Bytes
    requires r.name in files && 0 <= r.offset <= |files[r.name]|
  {
    files[r.name][r.offset..]
  }

  ghost predicate Open(files: Files, readers: seq<Reader>) {
    forall i :: 0 <= i < |readers| ==> readers[i].name in files && 0 <= readers[i].offset < |files[readers[i].name]|
  }

  /** All the files, end to end. */
  function Stream(files: Files, names: seq<string>): Bytes
    requires forall i :: 0 <= i < |names| ==> names[i] in files
  {
    if names == [] then [] else Stream(files, names[..|names| - 1]) + files[names[|names| - 1]]
  }

  /** All that the readers deliver, one after the other. */
  ghost function Delivered(files: Files, readers: seq<Reader>): Bytes
    requires Open(files, readers)
  {
    if readers == [] then []
    else Delivered(files, readers[..|readers| - 1]) + Content(files, readers[|readers| - 1])
  }

  function Drop(s: Bytes, n: int): Bytes {
    if n <= 0 then s else if n >= |s| then [] else s[n..]
  }

  /** The readers deliver the files end to end, without the first `pos` bytes. */
  ghost predicate ReadsFrom(files: Files, names: seq<string>, pos: nat, readers: seq<Reader>) {
    && (forall i :: 0 <= i < |names| ==> names[i] in files)
    && Open(files, readers)
    && Delivered(files, readers) == Drop(Stream(files, names), pos)
  }

  datatype OpenError = CannotOpen(name: string)

  /**
   For a position that is not negative the readers deliver the stream without
   its first `pos` bytes, and none of them is empty. A negative position opens nothing.
   */
  method OpenFilesFromPos(files: Files, names: seq<string>, pos: int) returns (r: Result<seq<Reader>, OpenError>)
    ensures pos < 0 ==> r == Ok([])
    ensures pos >= 0 ==> (r.Ok? <==> forall i :: 0 <= i < |names| ==> names[i] in files)
    ensures r.Ok? ==> Open(files, r.value)
    ensures pos >= 0 && r.Ok? ==> ReadsFrom(files, names, pos, r.value)
  {
    var readers := [];
    if pos < 0 {
      return Ok(readers);
    }
    var rest := pos;
    for i := 0 to |names|
      invariant forall j :: 0 <= j < i ==> names[j] in files
      invariant rest == Left(Stream(files, names[..i]), pos)
      invariant Open(files, readers) && Delivered(files, readers) == Drop(Stream(files, names[..i]), pos)
    {
      if names[i] !in files {
        return Err(CannotOpen(names[i]));
      }
      assert names[..i + 1][..i] == names[..i];
      DropMore(Stream(files, names[..i]), files[names[i]], pos);
      var size := |files[names[i]]|;
      if size <= rest {
        rest := rest - size;
      } else {
        DeliveredMore(files, readers, Reader(names[i], rest));
        readers := readers + [Reader(names[i], rest)];
        rest := 0;
      }
    }
    assert names[..|names|] == names;
    return Ok(readers);
  }

  /** How much of `pos` is still to be skipped after the bytes `s`. */
  function Left(s: Bytes, pos: nat): nat {
    if pos < |s| then 0 else pos - |s|
  }

  lemma DropMore(s: Bytes, t: Bytes, pos: nat)
    ensures |t| <= Left(s, pos) ==> Drop(s + t, pos) == Drop(s, pos) && Left(s + t, pos) == Left(s, pos) - |t|
    ensures |t| > Left(s, pos) ==> Drop(s + t, pos) == Drop(s, pos) + t[Left(s, pos)..] && Left(s + t, pos) == 0
  {
  }

  lemma DeliveredMore(files: Files, readers: seq<Reader>, r: Reader)
    requires Open(files, readers) && r.name in files && 0 <= r.offset < |files[r.name]|
    ensures Open(files, readers + [r])
    ensures Delivered(files, readers + [r]) == Delivered(files, readers) + Content(files, r)
  {
    assert (readers + [r])[..|readers|] == readers;
  }

  /** Byte by byte: the readers deliver the files end to end, from position `pos` on, and nothing past the end. */
  lemma DeliversFrom(files: Files, names: seq<string>, pos: nat, readers: seq<Reader>)
    requires ReadsFrom(files, names, pos, readers)
    ensures |Delivered(files, readers)| == if pos < |Stream(files, names)| then |Stream(files, names)| - pos else 0
    ensures forall i :: 0 <= i < |Delivered(files, readers)| ==>
      Delivered(files, readers)[i] == Stream(files, names)[pos + i]
  {
  }

  /** The stream of two lists of files is the one after the other, and that of one file is its content. */
  lemma {:induction false} StreamConcat(files: Files, a: seq<string>, b: seq<string>)
    requires forall i :: 0 <= i < |a| ==> a[i] in files
    requires forall i :: 0 <= i < |b| ==> b[i] in files
    ensures forall i :: 0 <= i < |a + b| ==> (a + b)[i] in files
    ensures Stream(files, a + b) == Stream(files, a) + Stream(files, b)
    ensures |b| == 1 ==> Stream(files, b) == files[b[0]]
  {
    if b == [] {
      assert a + b == a;
    } else {
      var front := b[..|b| - 1];
      StreamConcat(files, a, front);
      assert (a + b)[..|a + b| - 1] == a + front;
    }
  }

  /** Reading on: after `n` bytes were read, the readers opened at `pos + n` deliver what the first ones had left. */
  lemma ResumesAfterRead(files: Files, names: seq<string>, pos: nat, n: nat, first: seq<Reader>, next: seq<Reader>)
    requires ReadsFrom(files, names, pos, first) && ReadsFrom(files, names, pos + n, next)
    requires n <= |Delivered(files, first)|
    ensures Delivered(files, first) == Delivered(files, first)[..n] + Delivered(files, next)
  {
  }

  /**
   Following a log: from any position up to the old end, the readers opened after
   bytes were appended to the last file deliver what the earlier ones did, and then
   those bytes.
   */
  lemma AppendExtends(files: Files, names: seq<string>, pos: nat, more: Bytes, first: seq<Reader>, next: seq<Reader>)
    requires names != [] && names[|names| - 1] !in names[..|names| - 1]
    requires ReadsFrom(files, names, pos, first) && pos <= |Stream(files, names)|
    requires ReadsFrom(files[names[|names| - 1] := files[names[|names| - 1]] + more], names, pos, next)
    ensures var files' := files[names[|names| - 1] := files[names[|names| - 1]] + more];
      Delivered(files', next) == Delivered(files, first) + more
  {
    var last, front := names[|names| - 1], names[..|names| - 1];
    var files' := files[last := files[last] + more];
    SameStream(files, files', front);
    assert Stream(files', names) == Stream(files, front) + (files[last] + more) == Stream(files, names) + more;
  }

  lemma {:induction false} SameStream(a: Files, b: Files, names: seq<string>)
    requires forall i :: 0 <= i < |names| ==> names[i] in a && names[i] in b && a[names[i]] == b[names[i]]
    ensures Stream(a, names) == Stream(b, names)
  {
    if names != [] {
      SameStream(a, b, names[..|names| - 1]);
    }
  }
}
