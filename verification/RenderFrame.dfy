/** The bytes of a cached render: a prefix, a header, the output, and the accepted inventory behind them
    (pkg/kustomize/render_cache.go, 148-224, 383-408 and 502-553; pkg/helm/template_cache.go, 235-302,
    385-405 and 430-455). JSON and the fingerprint are parameters. */
module RenderFrame {
  import opened Accepted
  import opened Ordering
  import opened Text

  type Byte = x: int | 0 <= x < 256

  type Bytes = seq<Byte>

  /** How values become bytes and back. */
  datatype Codec<!T> = Codec(encode: T -> Bytes, decode: Bytes -> Option<T>)

  ghost predicate Invertible<T(!new)>(c: Codec<T>) {
    forall t :: c.decode(c.encode(t)) == Some(t)
  }

  datatype Header = Header(key: string, binding: string, output: string, size: int, rest: string)

  /** Which of the two caches: they differ in their first bytes and in what they demand of an inventory. */
  datatype Dialect = Kustomize | Helm

  function Domain(d: Dialect): Bytes
    ensures |Domain(d)| == 8
  {
    Ascii(if d.Kustomize? then "flateks4" else "flatehr2")
  }

  function Version(d: Dialect): int {
    if d.Kustomize? then 2 else 1
  }

  function Ascii(s: string): (b: Bytes)
    ensures |b| == |s|
  {
    seq(|s|, i requires 0 <= i < |s| => s[i] as int % 256)
  }

  datatype World = World(dialect: Dialect, headers: Codec<Header>, inventories: Codec<Inventory>, fingerprint: Bytes -> string)

  ghost predicate Faithful(w: World) {
    && Invertible(w.headers) && Invertible(w.inventories)
    && forall b :: w.fingerprint(b) != ""
  }

  const PREFIX: nat := 12
  const LIMIT: nat := 16 * 1024 * 1024

  // ---------- the length of the header ----------

  function PutUint32(n: nat): (b: Bytes)
    ensures |b| == 4
  {
    [n / 0x100_0000 % 256, n / 0x1_0000 % 256, n / 0x100 % 256, n % 256]
  }

  function Uint32(b: Bytes): (n: nat)
    requires |b| == 4
  {
    (b[0] as int) * 0x100_0000 + (b[1] as int) * 0x1_0000 + (b[2] as int) * 0x100 + b[3] as int
  }

  lemma Uint32Back(n: nat)
    requires n < 0x1_0000_0000
    ensures Uint32(PutUint32(n)) == n
  {
  }

  // ---------- encoding ----------

  function Sealed(w: World, header: Header, output: Bytes): Header {
    header.(size := |output|, output := w.fingerprint(output))
  }

  method EncodeFrame(w: World, header: Header, output: Bytes) returns (r: Outcome<Bytes>)
    ensures r.Failed? <==> |w.headers.encode(Sealed(w, header, output))| > LIMIT
    ensures r.Ok? ==> r.value == Framed(w, header, output)
  {
    var data := w.headers.encode(Sealed(w, header, output));
    if |data| > LIMIT {
      return Failed;
    }
    var frame := new Byte[PREFIX + |data| + |output|](_ => 0);
    hide Domain, PutUint32, Uint32;
    CopyInto(frame, 0, Domain(w.dialect));
    CopyInto(frame, 8, PutUint32(|data|));
    CopyInto(frame, PREFIX, data);
    CopyInto(frame, PREFIX + |data|, output);
    FourParts(frame[..], Domain(w.dialect), PutUint32(|data|), data, output);
    return Ok(frame[..]);
  }

  lemma FourParts(all: Bytes, a: Bytes, b: Bytes, c: Bytes, d: Bytes)
    requires |a| == 8 && |b| == 4 && |all| == PREFIX + |c| + |d|
    requires all[0..8] == a && all[8..12] == b && all[12..12 + |c|] == c && all[12 + |c|..12 + |c| + |d|] == d
    ensures all == a + b + c + d
  {
    assert all == all[0..8] + all[8..12] + all[12..12 + |c|] + all[12 + |c|..12 + |c| + |d|];
  }

  method CopyInto(frame: array<Byte>, at: nat, data: Bytes)
    requires at + |data| <= frame.Length
    modifies frame
    ensures frame[at..at + |data|] == data
    ensures forall k | 0 <= k < frame.Length && (k < at || k >= at + |data|) :: frame[k] == old(frame[k])
  {
    for i := 0 to |data|
      invariant forall k | 0 <= k < i :: frame[at + k] == data[k]
      invariant forall k | 0 <= k < frame.Length && (k < at || k >= at + i) :: frame[k] == old(frame[k])
    {
      frame[at + i] := data[i];
    }
  }

  ghost function Framed(w: World, header: Header, output: Bytes): Bytes {
    var data := w.headers.encode(Sealed(w, header, output));
    Domain(w.dialect) + PutUint32(|data|) + data + output
  }

  // ---------- decoding ----------

  datatype Frame = Frame(header: Header, output: Bytes, raw: string, accepted: Option<Inventory>)

  /** The inventory counts only when it is complete, ordered, of this version and about this very header. */
  predicate Admissible(w: World, raw: string, accepted: Inventory) {
    && accepted.version == Version(w.dialect) && accepted.complete && accepted.raw == raw
    && (w.dialect.Kustomize? ==> accepted.final != "")
    && Ordered(accepted.records)
  }

  function DecodeTail(w: World, raw: string, tail: Bytes): Option<Inventory> {
    if |tail| == 0 || |tail| > LIMIT then None
    else
      var accepted := w.inventories.decode(tail);
      if accepted.Some? && Admissible(w, raw, accepted.value) then accepted else None
  }

  /** Defined on every string of bytes. */
  function DecodeFrame(w: World, data: Bytes): Outcome<Frame> {
    if |data| < PREFIX || data[..8] != Domain(w.dialect) then Failed
    else
      var size := Uint32(data[8..PREFIX]);
      if size > LIMIT || size > |data| - PREFIX then Failed
      else
        var begin := PREFIX + size;
        var header := w.headers.decode(data[PREFIX..begin]);
        if header.None? || header.value.size < 0 || header.value.size > |data| - begin then Failed
        else
          var end := begin + header.value.size;
          var output := data[begin..end];
          if header.value.output == "" || w.fingerprint(output) != header.value.output then Failed
          else
            var raw := w.fingerprint(data[PREFIX..begin]);
            Ok(Frame(header.value, output, raw, DecodeTail(w, raw, data[end..])))
  }

  // ---------- what decoding accepts ----------

  /** The four parts of a frame, with something behind them. */
  ghost function Assembled(w: World, head: Bytes, output: Bytes, tail: Bytes): Bytes {
    Domain(w.dialect) + PutUint32(|head|) + head + output + tail
  }

  lemma Parts(w: World, head: Bytes, output: Bytes, tail: Bytes)
    requires |head| <= LIMIT
    ensures var data := Assembled(w, head, output, tail);
            && |data| == PREFIX + |head| + |output| + |tail|
            && data[..8] == Domain(w.dialect) && Uint32(data[8..PREFIX]) == |head|
            && data[PREFIX..PREFIX + |head|] == head
            && data[PREFIX + |head|..PREFIX + |head| + |output|] == output
            && data[PREFIX + |head| + |output|..] == tail
  {
    Uint32Back(|head|);
    var data := Assembled(w, head, output, tail);
    assert data[8..PREFIX] == PutUint32(|head|);
  }

  /** Decoding a well-formed frame gives its parts, and the inventory behind it when that is admissible. */
  lemma DecodeAssembled(w: World, head: Bytes, header: Header, output: Bytes, tail: Bytes)
    requires |head| <= LIMIT && w.headers.decode(head) == Some(header)
    requires header.size == |output| && header.output == w.fingerprint(output) && header.output != ""
    ensures DecodeFrame(w, Assembled(w, head, output, tail)) ==
            Ok(Frame(header, output, w.fingerprint(head), DecodeTail(w, w.fingerprint(head), tail)))
  {
    hide DecodeTail, Uint32, PutUint32, Assembled;
    Parts(w, head, output, tail);
  }

  /** Only well-formed frames are decoded. */
  lemma DecodeSound(w: World, data: Bytes)
    ensures DecodeFrame(w, data).Ok? ==>
              var f := DecodeFrame(w, data).value;
              && f.header.size == |f.output| && f.header.output == w.fingerprint(f.output) && f.header.output != ""
              && (exists head, tail ::
                    && |head| <= LIMIT && data == Assembled(w, head, f.output, tail)
                    && w.headers.decode(head) == Some(f.header) && f.raw == w.fingerprint(head)
                    && f.accepted == DecodeTail(w, f.raw, tail))
              && (f.accepted.Some? ==> Admissible(w, f.raw, f.accepted.value))
  {
    hide Uint32, PutUint32, Admissible;
    if DecodeFrame(w, data).Ok? {
      var f := DecodeFrame(w, data).value;
      var size := Uint32(data[8..PREFIX]);
      var begin := PREFIX + size;
      var end := begin + f.header.size;
      var head, tail := data[PREFIX..begin], data[end..];
      PutUint32Back(data[8..PREFIX]);
      assert data == data[..8] + data[8..PREFIX] + head + f.output + tail;
      assert data == Assembled(w, head, f.output, tail);
      TailAdmissible(w, f.raw, tail);
    }
  }

  lemma TailAdmissible(w: World, raw: string, tail: Bytes)
    ensures DecodeTail(w, raw, tail).Some? ==> Admissible(w, raw, DecodeTail(w, raw, tail).value)
  {
  }

  lemma PutUint32Back(b: Bytes)
    requires |b| == 4
    ensures PutUint32(Uint32(b)) == b
  {
    var n := Uint32(b);
    assert n / 0x100 == (b[0] as int) * 0x1_0000 + (b[1] as int) * 0x100 + b[2] as int;
    assert n / 0x1_0000 == (b[0] as int) * 0x100 + b[1] as int;
    assert n / 0x100_0000 == b[0] as int;
  }

  /** Which inventory comes back with a well-formed frame: one that is there and not too long, complete, of the
      version of this cache, about the very header it stands behind, for Kustomize with the fingerprint of its
      inputs, and with its records and their roots in strict order. */
  lemma InventoryReadIff(w: World, head: Bytes, header: Header, output: Bytes, tail: Bytes, a: Inventory)
    requires |head| <= LIMIT && w.headers.decode(head) == Some(header)
    requires header.size == |output| && header.output == w.fingerprint(output) && header.output != ""
    ensures var r := DecodeFrame(w, Assembled(w, head, output, tail));
            r.Ok? &&
            (r.value.accepted == Some(a) <==>
              && 0 < |tail| <= 16777216 && w.inventories.decode(tail) == Some(a)
              && a.complete && a.raw == w.fingerprint(head)
              && (w.dialect == Kustomize ==> a.version == 2 && a.final != "") && (w.dialect == Helm ==> a.version == 1)
              && (forall i | 0 < i < |a.records| ::
                    LexLe(a.records[i - 1].id, a.records[i].id) && a.records[i - 1].id != a.records[i].id)
              && (forall i, j | 0 <= i < |a.records| && 0 < j < |a.records[i].roots| ::
                    LexLe(a.records[i].roots[j - 1].source, a.records[i].roots[j].source) &&
                    a.records[i].roots[j - 1].source != a.records[i].roots[j].source))
  {
    hide DecodeFrame, Assembled, LexLe;
    DecodeAssembled(w, head, header, output, tail);
  }

  /** The bytes of a frame: a name of eight characters, the length of the header with its highest byte first,
      the header and the output. */
  lemma FrameLayout(w: World, header: Header, output: Bytes)
    requires |w.headers.encode(Sealed(w, header, output))| <= LIMIT
    ensures var head, data := w.headers.encode(Sealed(w, header, output)), Framed(w, header, output);
            && |data| == 12 + |head| + |output|
            && data[..8] == (if w.dialect.Kustomize? then [102, 108, 97, 116, 101, 107, 115, 52]
                             else [102, 108, 97, 116, 101, 104, 114, 50])
            && |head| == 16777216 * (data[8] as int) + 65536 * (data[9] as int) + 256 * (data[10] as int) + data[11] as int
            && data[12..12 + |head|] == head && data[12 + |head|..] == output
  {
    var head, data := w.headers.encode(Sealed(w, header, output)), Framed(w, header, output);
    FramedParts(w, header, output);
    Parts(w, head, output, []);
    assert data[8..PREFIX][0] == data[8] && data[8..PREFIX][1] == data[9] && data[8..PREFIX][2] == data[10] && data[8..PREFIX][3] == data[11];
    DomainBytes(w.dialect);
    assert data[PREFIX + |head|..] == output + [] == output by {
      assert data == Assembled(w, head, output, []);
    }
  }

  lemma DomainBytes(d: Dialect)
    ensures Domain(d) == if d.Kustomize? then [102, 108, 97, 116, 101, 107, 115, 52] else [102, 108, 97, 116, 101, 104, 114, 50]
  {
    assert "flateks4" == ['f', 'l', 'a', 't', 'e', 'k', 's', '4'] && "flatehr2" == ['f', 'l', 'a', 't', 'e', 'h', 'r', '2'];
  }

  /** A frame cut short anywhere before its end is not decoded at all. */
  lemma CutShort(w: World, head: Bytes, header: Header, output: Bytes, k: nat)
    requires |head| <= LIMIT && w.headers.decode(head) == Some(header) && header.size == |output|
    requires k < |Assembled(w, head, output, [])|
    ensures DecodeFrame(w, Assembled(w, head, output, [])[..k]).Failed?
  {
    hide DecodeTail, Uint32, PutUint32, Assembled;
    Parts(w, head, output, []);
    var data := Assembled(w, head, output, []);
    var cut := data[..k];
    if k >= PREFIX {
      assert cut[8..PREFIX] == data[8..PREFIX];
      if k >= PREFIX + |head| {
        assert cut[PREFIX..PREFIX + |head|] == data[PREFIX..PREFIX + |head|];
      }
    }
  }

  // ---------- publishing ----------

  /** A render in hand: fresh, or decoded from the cache, when `raw` is already known. */
  datatype Held = Held(header: Header, bindingPrint: string, output: Bytes, raw: string, encoded: Option<Bytes>)

  datatype Publication = Publication(frame: Held, accepted: Option<Inventory>)

  /** An earlier encoding is that of this very header, bound already, and output. */
  ghost predicate Consistent(w: World, f: Held) {
    && f.bindingPrint != ""
    && (f.encoded.Some? ==> f.header.binding != "" && f.encoded.value == Framed(w, f.header, f.output) &&
                            |w.headers.encode(Sealed(w, f.header, f.output))| <= LIMIT)
  }

  ghost function Bound(f: Held): Header {
    if f.header.binding == "" then f.header.(binding := f.bindingPrint) else f.header
  }

  /** The fingerprint of the header bytes that will be written. */
  ghost function RawOf(w: World, f: Held): string {
    w.fingerprint(w.headers.encode(Sealed(w, Bound(f), f.output)))
  }

  method PrepareRenderPublication(w: World, f: Held, owner: Id, final: string, records: Option<Listing>)
    returns (r: Outcome<Publication>)
    requires Consistent(w, f)
    ensures r.Ok? ==>
              var p := r.value;
              && p.frame.header == Bound(f) && p.frame.output == f.output && Consistent(w, p.frame)
              && p.frame.header == f.header.(binding := p.frame.header.binding)
              && p.frame.header.binding == (if f.header.binding == "" then f.bindingPrint else f.header.binding) != ""
              && p.frame.raw == (if f.raw == "" then RawOf(w, f) else f.raw)
              && (p.accepted.Some? <==> records.Some?)
              && (records.Some? ==>
                    && ItemsOf(records.value, p.accepted.value.records)
                    && p.accepted.value == Inventory(Version(w.dialect), true, owner, p.frame.raw, final, p.accepted.value.records))
    ensures r.Failed? ==>
              || |w.headers.encode(Sealed(w, Bound(f), f.output))| > LIMIT
              || (records.Some? && Repeats(records.value))
  {
    hide Uint32, PutUint32;
    var g := f;
    if g.header.binding == "" {
      g := g.(header := g.header.(binding := g.bindingPrint));
    }
    if g.encoded.None? && g.raw == "" {
      var encoded := EncodeFrame(w, g.header, g.output);
      if encoded.Failed? {
        return Failed;
      }
      g := g.(encoded := Some(encoded.value));
    }
    if g.raw == "" {
      FramedParts(w, g.header, g.output);
      g := g.(raw := w.fingerprint(g.encoded.value[PREFIX..PREFIX + Uint32(g.encoded.value[8..PREFIX])]));
    }
    if records.None? {
      return Ok(Publication(g, None));
    }
    var accepted := PrepareAccepted(Version(w.dialect), owner, g.raw, final, records.value);
    if accepted.Failed? {
      return Failed;
    }
    return Ok(Publication(g, Some(accepted.value)));
  }

  lemma FramedParts(w: World, header: Header, output: Bytes)
    requires |w.headers.encode(Sealed(w, header, output))| <= LIMIT
    ensures var head := w.headers.encode(Sealed(w, header, output));
            var data := Framed(w, header, output);
            && data == Assembled(w, head, output, [])
            && |data| >= PREFIX + |head| && Uint32(data[8..PREFIX]) == |head| && data[PREFIX..PREFIX + |head|] == head
  {
    var head := w.headers.encode(Sealed(w, header, output));
    assert Framed(w, header, output) == Assembled(w, head, output, []);
    Parts(w, head, output, []);
  }

  method WriteTo(w: World, p: Publication) returns (r: Outcome<Bytes>)
    requires Consistent(w, p.frame) && (p.accepted.Some? ==> p.accepted.value.complete)
    ensures r.Ok? ==>
              && |w.headers.encode(Sealed(w, p.frame.header, p.frame.output))| <= LIMIT
              && (p.accepted.Some? ==> |w.inventories.encode(p.accepted.value)| <= LIMIT)
              && r.value == Framed(w, p.frame.header, p.frame.output) +
                            (if p.accepted.Some? then w.inventories.encode(p.accepted.value) else [])
    ensures r.Failed? ==>
              || |w.headers.encode(Sealed(w, p.frame.header, p.frame.output))| > LIMIT
              || (p.accepted.Some? && |w.inventories.encode(p.accepted.value)| > LIMIT)
  {
    var frame: Bytes;
    if p.frame.encoded.None? {
      var encoded := EncodeFrame(w, p.frame.header, p.frame.output);
      if encoded.Failed? {
        return Failed;
      }
      frame := encoded.value;
    } else {
      frame := p.frame.encoded.value;
    }
    if p.accepted.None? {
      return Ok(frame + []);
    }
    var data := w.inventories.encode(p.accepted.value);
    if |data| > LIMIT {
      return Failed;
    }
    return Ok(frame + data);
  }

  // ---------- the round trip ----------

  /** What was written is read back: the header with the size and fingerprint of the output, the output, and the
      inventory exactly when it is admissible and speaks of the header as written. */
  lemma WrittenReadBack(w: World, header: Header, output: Bytes, accepted: Option<Inventory>)
    requires Faithful(w) && |w.headers.encode(Sealed(w, header, output))| <= LIMIT
    requires accepted.Some? ==> 0 < |w.inventories.encode(accepted.value)| <= LIMIT
    ensures var head := w.headers.encode(Sealed(w, header, output));
            var raw := w.fingerprint(head);
            var data := Framed(w, header, output) + (if accepted.Some? then w.inventories.encode(accepted.value) else []);
            DecodeFrame(w, data) ==
            Ok(Frame(Sealed(w, header, output), output, raw,
                     if accepted.Some? && Admissible(w, raw, accepted.value) then accepted else None))
  {
    hide DecodeFrame, Admissible, Domain, PutUint32;
    var head := w.headers.encode(Sealed(w, header, output));
    var tail := if accepted.Some? then w.inventories.encode(accepted.value) else [];
    FramedParts(w, header, output);
    assert Assembled(w, head, output, []) + tail == Assembled(w, head, output, tail);
    DecodeAssembled(w, head, Sealed(w, header, output), output, tail);
  }

  /** Publishing and decoding: a render with a fresh or matching raw fingerprint keeps its whole inventory; one
      whose raw fingerprint is that of other header bytes loses it. */
  method Publish(w: World, f: Held, owner: Id, final: string, records: Listing)
    returns (r: Outcome<Bytes>, ghost accepted: Inventory)
    requires Faithful(w) && Consistent(w, f) && (w.dialect.Kustomize? ==> final != "")
    requires forall a :: w.inventories.encode(a) != []
    ensures r.Ok? ==>
              && ItemsOf(records, accepted.records)
              && accepted.complete && accepted.owner == owner && accepted.final == final
              && DecodeFrame(w, r.value) ==
                 Ok(Frame(Sealed(w, Bound(f), f.output), f.output, RawOf(w, f),
                          if f.raw == "" || f.raw == RawOf(w, f) then Some(accepted) else None))
    ensures r.Failed? && !Repeats(records) ==>
              || |w.headers.encode(Sealed(w, Bound(f), f.output))| > LIMIT
              || |w.inventories.encode(accepted)| > LIMIT
  {
    hide DecodeFrame, Domain, PutUint32, Framed;
    var p := PrepareRenderPublication(w, f, owner, final, Some(records));
    accepted := Inventory(0, false, owner, "", final, []);
    if p.Failed? {
      return Failed, accepted;
    }
    accepted := p.value.accepted.value;
    r := WriteTo(w, p.value);
    if r.Ok? {
      WrittenReadBack(w, p.value.frame.header, f.output, p.value.accepted);
    }
  }

  /** A frame read from the cache, bound as it was when written, matches its own raw fingerprint. */
  lemma DecodedMatches(w: World, header: Header, output: Bytes, tail: Bytes, bindingPrint: string)
    requires Faithful(w) && |w.headers.encode(Sealed(w, header, output))| <= LIMIT && header.binding != ""
    ensures var r := DecodeFrame(w, Framed(w, header, output) + tail);
            && r.Ok?
            && r.value.raw == RawOf(w, Held(r.value.header, bindingPrint, r.value.output, r.value.raw, None))
  {
    hide DecodeFrame, Domain, PutUint32;
    var head := w.headers.encode(Sealed(w, header, output));
    FramedParts(w, header, output);
    assert Assembled(w, head, output, []) + tail == Assembled(w, head, output, tail);
    DecodeAssembled(w, head, Sealed(w, header, output), output, tail);
  }
}
