/**
 * The file-backed queue. Each `Put` writes one frame to the file: the object's
 * catalog kind as 2 little-endian bytes, the payload length as 8 little-endian
 * bytes, then the encoded payload. `Next` reads the same three fields back. The
 * catalog maps a kind to the first object type registered under it.
 *
 * The file is the sequence of bytes written so far plus a read position. The
 * encoder's output, the type of an object, and the outcome of each file write
 * are parameters; decoding the payload into an object is not part of this model.
 */
module Fbq {
  import opened Wrappers

  newtype byte = x: int | 0 <= x < 256

  /** The name of a Go type, as compared by `reflect.TypeOf`. */
  type TypeName = string

  /** 2^(8n): one more than the largest value that fits in `n` bytes. */
  function Pow256(n: nat): (p: nat)
    ensures p >= 1
  {
    if n == 0 then 1 else 256 * Pow256(n - 1)
  }

  /** `binary.LittleEndian.PutUintN`: `v` in `n` bytes, least significant first. */
  function LE(v: nat, n: nat): (b: seq<byte>)
    ensures |b| == n
  {
    if n == 0 then [] else [(v % 256) as byte] + LE(v / 256, n - 1)
  }

  /** `binary.LittleEndian.UintN`: the value of little-endian bytes. */
  function FromLE(b: seq<byte>): (v: nat)
    ensures v < Pow256(|b|)
  {
    if |b| == 0 then 0 else b[0] as nat + 256 * FromLE(b[1..])
  }

  /** Decoding an encoding gives the value back. */
  lemma {:induction false} FromLEOfLE(v: nat, n: nat)
    requires v < Pow256(n)
    ensures FromLE(LE(v, n)) == v
  {
    if n > 0 {
      FromLEOfLE(v / 256, n - 1);
      assert LE(v, n)[1..] == LE(v / 256, n - 1);
    }
  }

  /** Encoding a decoded value gives the bytes back. */
  lemma {:induction false} LEOfFromLE(b: seq<byte>)
    ensures LE(FromLE(b), |b|) == b
  {
    if |b| > 0 {
      LEOfFromLE(b[1..]);
      var v := FromLE(b);
      assert v % 256 == b[0] as nat;
      assert v / 256 == FromLE(b[1..]);
    }
  }

  const KindSize: nat := 2
  const LengthSize: nat := 8
  /** A Go `int` length never exceeds 2^63 - 1. */
  const MaxGoInt: nat := 0x7FFF_FFFF_FFFF_FFFF

  /** One frame as `Put` writes it. */
  function EncodeFrame(kind: nat, payload: seq<byte>): (f: seq<byte>)
    requires kind < 0x1_0000 && |payload| <= MaxGoInt
    ensures |f| == KindSize + LengthSize + |payload|
  {
    LE(kind, KindSize) + LE(|payload|, LengthSize) + payload
  }

  /**
   * `file.Read(b)` on the file `file` at `pos`, for a buffer of `k` bytes: at the
   * end of the file a non-empty read reports EOF; otherwise what is there is
   * copied, and the rest of the buffer keeps its zeroes.
   */
  datatype ReadResult = Eof | Bytes(data: seq<byte>, next: nat)

  function ReadAt(file: seq<byte>, pos: nat, k: nat): (r: ReadResult)
    ensures r.Bytes? ==> |r.data| == k && pos <= r.next <= |file| + pos
  {
    if k == 0 then Bytes([], pos)
    else if pos >= |file| then Eof
    else
      var avail := if |file| - pos < k then |file| - pos else k;
      Bytes(file[pos..pos + avail] + seq(k - avail, _ => 0 as byte), pos + avail)
  }

  /** What `Next` returns. `Panicked` is the runtime fault of a length above 2^63 - 1. */
  datatype NextResult =
    | End
    | Failure(msg: string)
    | Panicked
    | Item(kind: nat, typ: TypeName, payload: seq<byte>, next: nat)

  /** The catalog type registered under `kind`, if any. */
  function Lookup(catalog: seq<TypeName>, kind: nat): (r: Option<TypeName>)
    ensures r.Some? <==> kind < |catalog|
    ensures r.Some? ==> r.value == catalog[kind]
  {
    if kind < |catalog| then Some(catalog[kind]) else None
  }

  /** The frame read at `pos`, field by field, as `Next` reads it. */
  function DecodeAt(file: seq<byte>, pos: nat, catalog: seq<TypeName>): NextResult {
    match ReadAt(file, pos, KindSize)
    case Eof => End
    case Bytes(kb, p1) =>
      match ReadAt(file, p1, LengthSize)
      case Eof => End
      case Bytes(lb, p2) =>
        var n := FromLE(lb);
        if n > MaxGoInt then Panicked
        else
          match ReadAt(file, p2, n)
          case Eof => End
          case Bytes(payload, p3) =>
            var kind := FromLE(kb);
            match Lookup(catalog, kind)
            case None => Failure("unknown kind.")
            case Some(t) => Item(kind, t, payload, p3)
  }

  /** Where the reader stands after `Next` from `pos`: just past the last field it read. */
  function ReadEnd(file: seq<byte>, pos: nat): (e: nat)
    ensures pos <= e
    ensures pos <= |file| ==> e <= |file|
  {
    match ReadAt(file, pos, KindSize)
    case Eof => pos
    case Bytes(_, p1) =>
      match ReadAt(file, p1, LengthSize)
      case Eof => p1
      case Bytes(lb, p2) =>
        var n := FromLE(lb);
        if n > MaxGoInt then p2
        else
          match ReadAt(file, p2, n)
          case Eof => p2
          case Bytes(_, p3) => p3
  }

  /** The first bytes of a frame: the kind, the length and the start of the payload. */
  lemma FramePrefix(kind: nat, payload: seq<byte>, np: nat)
    requires kind < 0x1_0000 && |payload| <= MaxGoInt && np <= |payload|
    ensures EncodeFrame(kind, payload)[..KindSize + LengthSize + np] ==
      LE(kind, KindSize) + LE(|payload|, LengthSize) + payload[..np]
  {
    var f := EncodeFrame(kind, payload);
    var g := LE(kind, KindSize) + LE(|payload|, LengthSize) + payload[..np];
    assert forall i :: 0 <= i < |g| ==> f[i] == g[i];
  }

  /** The middle part of a concatenation is the slice at its offset. */
  lemma SliceOfConcat(a: seq<byte>, b: seq<byte>, c: seq<byte>)
    ensures (a + b + c)[|a|..|a| + |b|] == b
  {
    assert forall i :: 0 <= i < |b| ==> (a + b + c)[|a| + i] == b[i];
  }

  /** Reading a frame that `Put` wrote gives back its kind, type and payload, and leaves the reader just past it. */
  lemma FrameRoundTrip(prefix: seq<byte>, kind: nat, payload: seq<byte>, rest: seq<byte>,
                       catalog: seq<TypeName>)
    requires kind < |catalog| && kind < 0x1_0000 && |payload| <= MaxGoInt
    ensures var file := prefix + EncodeFrame(kind, payload) + rest;
      DecodeAt(file, |prefix|, catalog) ==
        Item(kind, catalog[kind], payload, |prefix| + KindSize + LengthSize + |payload|) &&
      ReadEnd(file, |prefix|) == |prefix| + KindSize + LengthSize + |payload|
  {
    FrameFields(prefix, kind, payload, rest);
  }

  /** The three reads of `Next` over a frame `Put` wrote: the kind bytes, the length bytes, then the payload. */
  lemma FrameFields(prefix: seq<byte>, kind: nat, payload: seq<byte>, rest: seq<byte>)
    requires kind < 0x1_0000 && |payload| <= MaxGoInt
    ensures var file := prefix + EncodeFrame(kind, payload) + rest;
      var p0 := |prefix|;
      ReadAt(file, p0, KindSize) == Bytes(LE(kind, KindSize), p0 + 2) &&
      ReadAt(file, p0 + 2, LengthSize) == Bytes(LE(|payload|, LengthSize), p0 + 10) &&
      ReadAt(file, p0 + 10, |payload|) == Bytes(payload, p0 + 10 + |payload|) &&
      FromLE(LE(kind, KindSize)) == kind && FromLE(LE(|payload|, LengthSize)) == |payload|
  {
    var file := prefix + EncodeFrame(kind, payload) + rest;
    var p0 := |prefix|;
    var kb := LE(kind, KindSize);
    var lb := LE(|payload|, LengthSize);
    assert file == (prefix + kb) + lb + (payload + rest);
    SliceOfConcat(prefix, kb, lb + payload + rest);
    SliceOfConcat(prefix + kb, lb, payload + rest);
    SliceOfConcat(prefix + kb + lb, payload, rest);
    assert seq(0, _ => 0 as byte) == [];
    FromLEOfLE(kind, KindSize);
    FromLEOfLE(|payload|, LengthSize);
  }

  /** At the end of the file, `Next` reports the end and no error. */
  lemma NextAtEnd(file: seq<byte>, catalog: seq<TypeName>)
    ensures DecodeAt(file, |file|, catalog) == End
  {
  }

  /** A frame whose kind has no catalog entry is reported as an unknown kind. */
  lemma {:induction false} UnknownKind(prefix: seq<byte>, kind: nat, payload: seq<byte>,
                                       catalog: seq<TypeName>)
    requires |catalog| <= kind < 0x1_0000 && |payload| <= MaxGoInt
    ensures DecodeAt(prefix + EncodeFrame(kind, payload), |prefix|, catalog) == Failure("unknown kind.")
  {
    assert prefix + EncodeFrame(kind, payload) + [] == prefix + EncodeFrame(kind, payload);
    FrameFields(prefix, kind, payload, []);
  }

  /** Catalog entries are pairwise distinct types. */
  ghost predicate Distinct(catalog: seq<TypeName>) {
    forall i, j :: 0 <= i < j < |catalog| ==> catalog[i] != catalog[j]
  }

  /** The outcome of one `file.Write`: how many bytes were accepted, and whether it erred. */
  datatype WriteResult = WriteResult(n: nat, failed: bool)

  /** The outcomes of the three writes of one `Put`. */
  datatype Writes = Writes(kind: WriteResult, length: WriteResult, payload: WriteResult)

  datatype PutError = EncodeError | WriteError | ShortWrite

  class Queue {
    /** Prototype types; a type's position is its kind. */
    var catalog: seq<TypeName>
    /** Bytes written to the backing file. */
    var file: seq<byte>
    /** Offset of the reader in the backing file. */
    var readPos: nat

    ghost predicate Valid()
      reads this
    {
      Distinct(catalog) && readPos <= |file|
    }

    /** `NewAt`: an empty queue over a new file. */
    constructor ()
      ensures Valid() && catalog == [] && file == [] && readPos == 0
    {
      catalog, file, readPos := [], [], 0;
    }

    /** `add`: the kind of a type, registering the type when it is new. */
    method Add(t: TypeName) returns (kind: nat)
      requires Valid()
      modifies this`catalog
      ensures Valid()
      ensures t in old(catalog) ==> catalog == old(catalog) && kind == (Index(catalog, t) % 0x1_0000)
      ensures t !in old(catalog) ==> catalog == old(catalog) + [t] && kind == |old(catalog)| % 0x1_0000
    {
      var i := 0;
      while i < |catalog|
        invariant 0 <= i <= |catalog|
        invariant forall j :: 0 <= j < i ==> catalog[j] != t
      {
        if catalog[i] == t {
          IndexOfDistinct(catalog, i);
          return i % 0x1_0000;
        }
        i := i + 1;
      }
      kind := |catalog| % 0x1_0000;
      catalog := catalog + [t];
    }

    /** `find`: the type registered under `kind`, found iff `kind` is within the catalog. */
    method Find(kind: nat) returns (t: TypeName, found: bool)
      requires kind < 0x1_0000
      ensures found <==> kind < |catalog|
      ensures found ==> t == catalog[kind]
    {
      found := kind < |catalog|;
      t := if found then catalog[kind] else "";
    }

    /** One `file.Write` of `b`: the accepted prefix is appended. */
    method Write(b: seq<byte>, w: WriteResult)
      modifies this`file
      ensures file == old(file) + b[..if w.n < |b| then w.n else |b|]
    {
      file := file + b[..if w.n < |b| then w.n else |b|];
    }

    /**
     * `Put`: encode, register the type, then write kind, length and payload,
     * stopping at the first failed write.
     */
    method Put(t: TypeName, encoded: Option<seq<byte>>, w: Writes) returns (err: Option<PutError>)
      requires Valid()
      requires encoded.Some? ==> |encoded.value| <= MaxGoInt
      modifies this`catalog, this`file
      ensures Valid()
      ensures encoded.None? ==> err == Some(EncodeError) && catalog == old(catalog) && file == old(file)
      ensures encoded.Some? ==> catalog == if t in old(catalog) then old(catalog) else old(catalog) + [t]
      ensures encoded.Some? && !w.kind.failed && !w.length.failed && !w.payload.failed &&
              w.kind.n >= KindSize && w.length.n >= LengthSize ==>
        var kind := Index(catalog, t) % 0x1_0000;
        var p := encoded.value;
        file == old(file) + EncodeFrame(kind, p)[..KindSize + LengthSize + (if w.payload.n < |p| then w.payload.n else |p|)] &&
        (err.None? <==> w.payload.n == |p|) &&
        (err.Some? ==> err == Some(ShortWrite))
      ensures encoded.Some? && (w.kind.failed || w.length.failed || w.payload.failed) ==> err == Some(WriteError)
    {
      if encoded.None? {
        return Some(EncodeError);
      }
      var p := encoded.value;
      var kind := Add(t);
      assert kind == Index(catalog, t) % 0x1_0000 by {
        if t !in old(catalog) {
          IndexOfDistinct(catalog, |catalog| - 1);
        }
      }
      err := WriteFrame(kind, p, w);
    }

    /** The three writes of `Put`: kind, length, payload, stopping at the first failure. */
    method WriteFrame(kind: nat, p: seq<byte>, w: Writes) returns (err: Option<PutError>)
      requires kind < 0x1_0000 && |p| <= MaxGoInt
      modifies this`file
      ensures old(file) <= file
      ensures !w.kind.failed && !w.length.failed && !w.payload.failed &&
              w.kind.n >= KindSize && w.length.n >= LengthSize ==>
        file == old(file) + EncodeFrame(kind, p)[..KindSize + LengthSize + (if w.payload.n < |p| then w.payload.n else |p|)] &&
        (err.None? <==> w.payload.n == |p|) &&
        (err.Some? ==> err == Some(ShortWrite))
      ensures w.kind.failed || w.length.failed || w.payload.failed ==> err == Some(WriteError)
    {
      var kb, lb := LE(kind, KindSize), LE(|p|, LengthSize);
      Write(kb, w.kind);
      if w.kind.failed {
        return Some(WriteError);
      }
      Write(lb, w.length);
      if w.length.failed {
        return Some(WriteError);
      }
      Write(p, w.payload);
      if w.payload.failed {
        return Some(WriteError);
      }
      err := if w.payload.n == |p| then None else Some(ShortWrite);
      if w.kind.n >= KindSize && w.length.n >= LengthSize {
        var np := if w.payload.n < |p| then w.payload.n else |p|;
        assert kb[..KindSize] == kb && lb[..LengthSize] == lb;
        FramePrefix(kind, p, np);
      }
    }

    /** One `file.Read` into a buffer of `k` bytes. */
    method Read(k: nat) returns (r: ReadResult)
      requires readPos <= |file|
      modifies this`readPos
      ensures r == ReadAt(file, old(readPos), k)
      ensures r.Bytes? ==> readPos == r.next && readPos <= |file|
      ensures r.Eof? ==> readPos == old(readPos)
    {
      r := ReadAt(file, readPos, k);
      if r.Bytes? {
        readPos := r.next;
      }
    }

    /**
     * `Next`: read kind, length and payload, then look the kind up in the
     * catalog. The reader moves past every field read, so the next call starts
     * at the following frame.
     */
    method Next() returns (r: NextResult)
      requires Valid()
      modifies this`readPos
      ensures Valid()
      ensures r == DecodeAt(file, old(readPos), catalog)
      ensures readPos == ReadEnd(file, old(readPos))
      ensures r.Item? ==> readPos == r.next
    {
      var kb := Read(KindSize);
      if kb.Eof? {
        return End;
      }
      var lb := Read(LengthSize);
      if lb.Eof? {
        return End;
      }
      var n := FromLE(lb.data);
      if n > MaxGoInt {
        return Panicked;
      }
      var pb := Read(n);
      if pb.Eof? {
        return End;
      }
      var kind := FromLE(kb.data);
      var t, found := Find(kind);
      if !found {
        return Failure("unknown kind.");
      }
      r := Item(kind, t, pb.data, pb.next);
    }
  }

  /** A `Put` whose three writes are all complete appends the whole frame. */
  method PutComplete(q: Queue, t: TypeName, p: seq<byte>)
    requires q.Valid() && |p| <= MaxGoInt
    modifies q`catalog, q`file
    ensures q.Valid() && q.readPos == old(q.readPos)
    ensures q.catalog == if t in old(q.catalog) then old(q.catalog) else old(q.catalog) + [t]
    ensures q.file == old(q.file) + EncodeFrame(Index(q.catalog, t) % 0x1_0000, p)
  {
    var w := Writes(WriteResult(KindSize, false), WriteResult(LengthSize, false), WriteResult(|p|, false));
    var _ := q.Put(t, Some(p), w);
    ghost var f := EncodeFrame(Index(q.catalog, t) % 0x1_0000, p);
    assert f[..KindSize + LengthSize + |p|] == f;
  }

  /** A new queue holding two complete frames, of two different types. */
  method PutTwice(t1: TypeName, p1: seq<byte>, t2: TypeName, p2: seq<byte>) returns (q: Queue)
    requires t1 != t2 && |p1| <= MaxGoInt && |p2| <= MaxGoInt
    ensures fresh(q) && q.Valid() && q.readPos == 0
    ensures q.catalog == [t1, t2]
    ensures q.file == EncodeFrame(0, p1) + EncodeFrame(1, p2)
  {
    q := new Queue();
    PutComplete(q, t1, p1);
    ghost var f1 := q.file;
    assert f1 == EncodeFrame(0, p1) by {
      assert Index([t1], t1) == 0;
    }
    PutComplete(q, t2, p2);
    assert Index([t1, t2], t2) == 1;
  }

  /**
   * Two `Put`s of objects of two types with every write complete, then two
   * `Next`s on a new queue: the objects come back in the order they were put,
   * each under its own type.
   */
  method PutTwiceNextTwice(t1: TypeName, p1: seq<byte>, t2: TypeName, p2: seq<byte>)
    returns (first: NextResult, second: NextResult)
    requires t1 != t2 && |p1| <= MaxGoInt && |p2| <= MaxGoInt
    ensures first == Item(0, t1, p1, KindSize + LengthSize + |p1|)
    ensures second == Item(1, t2, p2, 2 * (KindSize + LengthSize) + |p1| + |p2|)
  {
    var q := PutTwice(t1, p1, t2, p2);
    var f1, f2 := EncodeFrame(0, p1), EncodeFrame(1, p2);
    FrameRoundTrip([], 0, p1, f2, q.catalog);
    assert [] + f1 + f2 == q.file;
    first := q.Next();
    FrameRoundTrip(f1, 1, p2, [], q.catalog);
    assert f1 + f2 + [] == q.file;
    second := q.Next();
  }

  /** The position of `t` in `s` (the first one), or `|s|` when absent. */
  function Index(s: seq<TypeName>, t: TypeName): (i: nat)
    ensures i <= |s|
    ensures i < |s| <==> t in s
    ensures i < |s| ==> s[i] == t && forall j :: 0 <= j < i ==> s[j] != t
  {
    if |s| == 0 then 0 else if s[0] == t then 0 else 1 + Index(s[1..], t)
  }

  /** In a catalog of distinct types, the position of an entry is its index. */
  lemma IndexOfDistinct(s: seq<TypeName>, i: nat)
    requires Distinct(s) && i < |s|
    ensures Index(s, s[i]) == i
  {
  }

  /** Registering keeps catalog types pairwise distinct. */
  lemma AppendNewKeepsDistinct(s: seq<TypeName>, t: TypeName)
    requires Distinct(s) && t !in s
    ensures Distinct(s + [t])
  {
  }
}
