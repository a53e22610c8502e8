/** Scan responses: framing packets out of the stream, splitting advertising data into its fields (section
    11 of Volume 3, Part C of the Bluetooth Core Specification), and slicing service UUIDs out of them. */
module BgapiScan {
  import opened Basics
  import opened BgapiPort

  // ----- splitting advertising data -----

  /** The fields of advertising data: a length, then that many bytes. Zero lengths are padding, and a field
      cut off by the end of the data is dropped. */
  function Split(data: seq<byte>): (fields: seq<seq<byte>>)
    ensures forall i | 0 <= i < |fields| :: fields[i] != []
  {
    if data == [] then []
    else if data[0] == 0 then Split(data[1..])
    else if |data| < 1 + data[0] as int then []
    else [data[1..1 + data[0] as int]] + Split(data[1 + data[0] as int..])
  }

  /** What comes out when a field is already open: `left` more bytes belong to it. */
  function SplitOpen(field: seq<byte>, left: nat, rest: seq<byte>): seq<seq<byte>> {
    if left == 0 then Split(rest)
    else if |rest| < left then []
    else [field + rest[..left]] + Split(rest[left..])
  }

  /** A field behind any amount of padding. */
  datatype Padded = Padded(zeros: nat, field: seq<byte>) {
    predicate Fits() {
      1 <= |field| <= 255
    }

    function Encode(): seq<byte>
      requires Fits()
    {
      Zeros(zeros) + [|field|] + field
    }
  }

  predicate AllFit(ps: seq<Padded>) {
    forall p <- ps :: p.Fits()
  }

  function Zeros(n: nat): seq<byte> {
    seq(n, _ => 0)
  }

  function EncodeFields(ps: seq<Padded>): seq<byte>
    requires AllFit(ps)
  {
    if ps == [] then [] else ps[0].Encode() + EncodeFields(ps[1..])
  }

  function FieldsOf(ps: seq<Padded>): seq<seq<byte>> {
    seq(|ps|, i requires 0 <= i < |ps| => ps[i].field)
  }

  /** Padding, and then nothing or a field whose end is missing. */
  predicate Tail(t: seq<byte>) {
    t == [] || (if t[0] == 0 then Tail(t[1..]) else |t| <= t[0] as int)
  }

  lemma {:induction false} SplitZeros(n: nat, rest: seq<byte>)
    ensures Split(Zeros(n) + rest) == Split(rest)
  {
    if n > 0 {
      assert (Zeros(n) + rest)[1..] == Zeros(n - 1) + rest;
      SplitZeros(n - 1, rest);
    } else {
      assert Zeros(0) + rest == rest;
    }
  }

  lemma {:induction false} SplitTail(t: seq<byte>)
    requires Tail(t)
    ensures Split(t) == []
  {
    if t != [] && t[0] == 0 {
      SplitTail(t[1..]);
    }
  }

  lemma {:induction false} SplitField(field: seq<byte>, rest: seq<byte>)
    requires 1 <= |field| <= 255
    ensures Split([|field|] + field + rest) == [field] + Split(rest)
  {
    var s := [|field|] + field + rest;
    assert s[0] as int == |field| && s[1..1 + |field|] == field && s[1 + |field|..] == rest;
  }

  lemma {:induction false} SplitPadded(p: Padded, rest: seq<byte>)
    requires p.Fits()
    ensures Split(p.Encode() + rest) == [p.field] + Split(rest)
  {
    var s := [|p.field|] + p.field + rest;
    assert p.Encode() + rest == Zeros(p.zeros) + s;
    hide Zeros, Split;
    SplitZeros(p.zeros, s);
    SplitField(p.field, rest);
  }

  lemma {:induction false} EncodeCons(p: Padded, ps: seq<Padded>)
    requires p.Fits() && AllFit(ps)
    ensures AllFit([p] + ps)
    ensures EncodeFields([p] + ps) == p.Encode() + EncodeFields(ps)
    ensures FieldsOf([p] + ps) == [p.field] + FieldsOf(ps)
  {
  }

  /** Encoded fields split back into exactly themselves, whatever the padding and the truncated rest. */
  lemma {:induction false} SplitEncoded(ps: seq<Padded>, t: seq<byte>)
    requires AllFit(ps) && Tail(t)
    ensures Split(EncodeFields(ps) + t) == FieldsOf(ps)
    decreases |ps|
  {
    if ps == [] {
      SplitTail(t);
      assert EncodeFields(ps) + t == t;
    } else {
      var p, more := ps[0], ps[1..];
      assert ps == [p] + more;
      EncodeCons(p, more);
      SplitPadded(p, EncodeFields(more) + t);
      SplitEncoded(more, t);
      assert EncodeFields(ps) + t == p.Encode() + (EncodeFields(more) + t);
    }
    hide Split, EncodeFields, FieldsOf, Tail, Padded.Encode, Padded.Fits;
  }

  /** ps and t are an encoding of data, with the fields that splitting finds. */
  ghost predicate Encodes(ps: seq<Padded>, t: seq<byte>, data: seq<byte>) {
    AllFit(ps) && Tail(t) && data == EncodeFields(ps) + t && Split(data) == FieldsOf(ps)
  }

  lemma {:induction false} EncodesNothing(t: seq<byte>)
    requires Tail(t)
    ensures Encodes([], t, t)
  {
    SplitTail(t);
    assert EncodeFields([]) + t == t;
  }

  lemma {:induction false} EncodesPadded(ps: seq<Padded>, t: seq<byte>, data: seq<byte>)
    requires Encodes(ps, t, data) && ps != []
    ensures Encodes([ps[0].(zeros := ps[0].zeros + 1)] + ps[1..], t, [0] + data)
  {
    hide EncodeFields, FieldsOf, Tail, Padded.Encode;
    var q, more := ps[0], ps[1..];
    var p := q.(zeros := q.zeros + 1);
    assert q in ps && ps == [q] + more;
    EncodeCons(p, more);
    EncodeCons(q, more);
    EncodeMore(q);
    assert ([0] + data)[1..] == data;
    assert [0] + (q.Encode() + EncodeFields(more) + t) == [0] + q.Encode() + EncodeFields(more) + t;
  }

  lemma EncodeMore(p: Padded)
    requires p.Fits()
    ensures p.(zeros := p.zeros + 1).Encode() == [0] + p.Encode()
    ensures p.zeros == 0 ==> p.Encode() == [|p.field|] + p.field
  {
  }

  lemma {:induction false} EncodesField(ps: seq<Padded>, t: seq<byte>, data: seq<byte>, field: seq<byte>)
    requires Encodes(ps, t, data) && 1 <= |field| <= 255
    ensures Encodes([Padded(0, field)] + ps, t, [|field|] + field + data)
  {
    hide EncodeFields, FieldsOf, Tail, Split, AllFit, Zeros, Padded.Encode;
    var p := Padded(0, field);
    EncodeCons(p, ps);
    SplitPadded(p, data);
    EncodeMore(p);
    assert p.Encode() + (EncodeFields(ps) + t) == p.Encode() + EncodeFields(ps) + t;
  }

  /** And every byte string is such an encoding, so splitting is its only reading. */
  lemma {:induction false} EveryDataIsEncoded(data: seq<byte>) returns (ps: seq<Padded>, t: seq<byte>)
    ensures Encodes(ps, t, data)
  {
    hide Split, Encodes;
    if Tail(data) {
      ps, t := [], data;
      EncodesNothing(data);
    } else if data[0] == 0 {
      ps, t := EveryDataIsEncoded(data[1..]);
      assert data == [0] + data[1..];
      if ps == [] {
        TailIsTail(t, data[1..]);
      }
      EncodesPadded(ps, t, data[1..]);
      ps := [ps[0].(zeros := ps[0].zeros + 1)] + ps[1..];
    } else {
      var n := 1 + data[0] as int;
      ps, t := EveryDataIsEncoded(data[n..]);
      EncodesField(ps, t, data[n..], data[1..n]);
      assert data == [data[0]] + data[1..n] + data[n..];
      ps := [Padded(0, data[1..n])] + ps;
    }
  }

  lemma TailIsTail(t: seq<byte>, data: seq<byte>)
    ensures Encodes([], t, data) ==> Tail(data)
  {
    assert EncodeFields([]) + t == t;
  }

  // ----- service UUIDs -----

  /** Bytes per UUID in a service-list field of this type, 0 for the other types. */
  function UuidWidth(kind: byte): nat {
    if kind == 0x02 || kind == 0x03 then 2
    else if kind == 0x04 || kind == 0x05 then 4
    else if kind == 0x06 || kind == 0x07 then 16
    else 0
  }

  /** Python's s[start : stop : -1] for negative start and stop. */
  function SliceBackward(s: seq<byte>, start: int, stop: int): seq<byte>
    requires start < 0 && stop < 0
  {
    var first, end := |s| + start, |s| + stop;
    var low, high := if end < -1 then 0 else end + 1, first + 1;
    if low < high then Reversed(s[low..high]) else []
  }

  /** The slices the loop takes of the bytes in front of `end`, the type byte excepted: backward windows
      of w bytes, from the end on. */
  function Slices(field: seq<byte>, w: nat, end: nat): (slices: seq<seq<byte>>)
    requires w > 0 && end <= |field|
    decreases end
  {
    if end < 1 + w then []
    else [SliceBackward(field, end - 1 - |field|, end - 1 - w - |field|)] + Slices(field, w, end - w)
  }

  function ServiceSlices(field: seq<byte>): seq<seq<byte>>
    requires field != [] && UuidWidth(field[0]) > 0
  {
    Slices(field, UuidWidth(field[0]), |field|)
  }

  lemma SliceIsWindow(field: seq<byte>, w: nat, end: nat)
    requires w > 0 && 1 + w <= end <= |field|
    ensures Reversed(SliceBackward(field, end - 1 - |field|, end - 1 - w - |field|)) == field[end - w..end]
  {
  }

  /** The slices, each turned round again, in the order they stand in the field. */
  function InWireOrder(slices: seq<seq<byte>>): seq<byte> {
    if slices == [] then [] else InWireOrder(slices[1..]) + Reversed(slices[0])
  }

  /** How many bytes in front of `end` are left over next to the type byte. */
  function LeftOver(w: nat, end: nat): (left: nat)
    requires w > 0 && end >= 1
    ensures left < w && 1 + left <= end
    decreases end
  {
    if end < 1 + w then end - 1 else LeftOver(w, end - w)
  }

  /** The slices make up field[low..end], and the last of them is the window at `low`. */
  ghost predicate Tiles(slices: seq<seq<byte>>, field: seq<byte>, w: nat, low: nat, end: nat) {
    && low <= end <= |field|
    && InWireOrder(slices) == field[low..end]
    && (slices == [] ==> low == end)
    && (slices != [] ==> low + w <= end && Reversed(slices[|slices| - 1]) == field[low..low + w])
  }

  lemma {:induction false} TilesCons(first: seq<byte>, more: seq<seq<byte>>, field: seq<byte>,
                                     w: nat, low: nat, end: nat)
    requires w <= end <= |field| && Reversed(first) == field[end - w..end] && Tiles(more, field, w, low, end - w)
    ensures Tiles([first] + more, field, w, low, end)
  {
  }

  lemma TilesNothing(field: seq<byte>, w: nat, end: nat)
    requires end <= |field|
    ensures Tiles([], field, w, end, end)
  {
  }

  lemma {:induction false} SlicesTile(field: seq<byte>, w: nat, end: nat)
    requires w > 0 && 1 <= end <= |field|
    ensures Tiles(Slices(field, w, end), field, w, 1 + LeftOver(w, end), end)
    decreases end
  {
    hide SliceBackward, Reversed, Tiles, InWireOrder;
    if end >= 1 + w {
      SlicesTile(field, w, end - w);
      SliceIsWindow(field, w, end);
      TilesCons(SliceBackward(field, end - 1 - |field|, end - 1 - w - |field|), Slices(field, w, end - w),
                field, w, 1 + LeftOver(w, end - w), end);
    } else {
      TilesNothing(field, w, end);
    }
  }

  lemma {:induction false} LeftOverIsRemainder(w: nat, end: nat)
    requires w == 2 || w == 4 || w == 16
    requires end >= 1
    ensures LeftOver(w, end) == (end - 1) % w
    decreases end
  {
    if end >= 1 + w {
      LeftOverIsRemainder(w, end - w);
    }
  }

  lemma WidthIs(kind: byte)
    ensures UuidWidth(kind) == 0 || UuidWidth(kind) == 2 || UuidWidth(kind) == 4 || UuidWidth(kind) == 16
  {
  }

  lemma ServiceSlicesAre(field: seq<byte>)
    requires field != [] && UuidWidth(field[0]) > 0
    ensures ServiceSlices(field) == Slices(field, UuidWidth(field[0]), |field|)
  {
    hide Slices, UuidWidth;
  }

  lemma TiledTo(slices: seq<seq<byte>>, field: seq<byte>, w: nat, low: nat)
    requires Tiles(slices, field, w, low, |field|)
    ensures low <= |field| && InWireOrder(slices) == field[low..]
    ensures slices != [] ==> low + w <= |field| && Reversed(slices[|slices| - 1]) == field[low..low + w]
  {
    hide InWireOrder, Reversed;
    assert field[low..|field|] == field[low..];
  }

  /** The backward slices tile a service field from its end without touching its type byte; what is left
      over next to the type byte is less than one UUID. The last slice, turned round, is the UUID that
      stands first in the field. */
  lemma ServicesTile(field: seq<byte>)
    requires field != [] && UuidWidth(field[0]) > 0
    ensures var w, slices := UuidWidth(field[0]), ServiceSlices(field);
            var left := (|field| - 1) % w;
            && InWireOrder(slices) == field[1 + left..]
            && (slices != [] ==>
                  && 1 + left + w <= |field|
                  && Reversed(slices[|slices| - 1]) == field[1 + left..1 + left + w])
  {
    hide *;
    WidthIs(field[0]);
    var w := UuidWidth(field[0]);
    SlicesTile(field, w, |field|);
    LeftOverIsRemainder(w, |field|);
    ServiceSlicesAre(field);
    TiledTo(Slices(field, w, |field|), field, w, 1 + LeftOver(w, |field|));
  }
}
