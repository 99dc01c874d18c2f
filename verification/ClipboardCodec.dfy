/**
 Clipboard contents as messages: each item is compressed when that makes it shorter.
 The compressor is a parameter; only that decompression undoes it is assumed.
 */
module ClipboardCodec {
  import opened Prelude
  import Utf8

  /** What the operating system's clipboard holds. */
  datatype Item =
    | Text(text: string)
    | Rtf(rtf: string)
    | Html(html: string)
    | Rgba(width: nat, height: nat, pixels: seq<Byte>)
    | Png(png: seq<Byte>)
    | Svg(svg: string)
    | Special(name: string, data: seq<Byte>)
    | FileUrl(urls: seq<string>)
    | Unsupported

  datatype Format = TextF | RtfF | HtmlF | RgbaF | PngF | SvgF | SpecialF | OtherF

  /** One item of a message; the sizes are signed 32-bit fields. */
  datatype Clip = Clip(compress: bool, content: seq<Byte>, width: int, height: int, format: Format, specialName: string)

  type Packer = seq<Byte> -> seq<Byte>

  ghost predicate Undoes(unpack: Packer, pack: Packer) {
    forall d: seq<Byte> :: unpack(pack(d)) == d
  }

  const TWO31 := 0x8000_0000
  const TWO32 := 0x1_0000_0000
  const TWO64 := 0x1_0000_0000_0000_0000

  /** A 64-bit size cast to a signed 32-bit field. */
  function ToI32(n: nat): int {
    var low := n % TWO32;
    if low < TWO31 then low else low - TWO32
  }

  /** A signed 32-bit field cast to a 64-bit size. */
  function ToUsize(n: int): (r: nat) {
    n % TWO64
  }

  predicate Shrinks(pack: Packer, data: seq<Byte>) {
    |pack(data)| < |data|
  }

  /** The content of a message item: the compressed data when that is shorter, else `plain`. */
  function Packed(pack: Packer, data: seq<Byte>, plain: seq<Byte>): seq<Byte> {
    if Shrinks(pack, data) then pack(data) else plain
  }

  function PlainToProto(pack: Packer, s: string, format: Format): Clip {
    var data := Utf8.Encode(s);
    Clip(Shrinks(pack, data), Packed(pack, data, data), 0, 0, format, "")
  }

  function ImageToProto(pack: Packer, data: seq<Byte>, width: int, height: int, format: Format): Clip {
    Clip(Shrinks(pack, data), Packed(pack, data, data), width, height, format, "")
  }

  /** When compression does not help, the content is the name of the format, not the data. */
  function SpecialToProto(pack: Packer, data: seq<Byte>, name: string): Clip {
    Clip(Shrinks(pack, data), Packed(pack, data, Utf8.Encode(name)), 0, 0, SpecialF, name)
  }

  function ToProto(pack: Packer, item: Item): Option<Clip> {
    match item
    case Text(s) => Some(PlainToProto(pack, s, TextF))
    case Rtf(s) => Some(PlainToProto(pack, s, RtfF))
    case Html(s) => Some(PlainToProto(pack, s, HtmlF))
    case Rgba(w, h, pixels) => Some(ImageToProto(pack, pixels, ToI32(w), ToI32(h), RgbaF))
    case Png(png) => Some(Clip(false, png, 0, 0, PngF, ""))
    case Svg(svg) => Some(ImageToProto(pack, Utf8.Encode(svg), 0, 0, SvgF))
    case Special(name, data) => Some(SpecialToProto(pack, data, name))
    case FileUrl(_) => None
    case Unsupported => None
  }

  function OptionMap<A, B>(x: Option<A>, f: A -> B): Option<B> {
    match x
    case None => None
    case Some(v) => Some(f(v))
  }

  function FromProto(unpack: Packer, c: Clip): Option<Item> {
    var data := if c.compress then unpack(c.content) else c.content;
    match c.format
    case TextF => OptionMap(Utf8.Decode(data), s => Text(s))
    case RtfF => OptionMap(Utf8.Decode(data), s => Rtf(s))
    case HtmlF => OptionMap(Utf8.Decode(data), s => Html(s))
    case RgbaF => Some(Rgba(ToUsize(c.width), ToUsize(c.height), data))
    case PngF => Some(Png(data))
    case SvgF => Some(Svg(match Utf8.Decode(data) case None => "" case Some(s) => s))
    case SpecialF => Some(Special(c.specialName, data))
    case OtherF => None
  }

  function EncodeAll(pack: Packer, items: seq<Item>): seq<Clip> {
    if items == [] then []
    else
      match ToProto(pack, items[0])
      case None => EncodeAll(pack, items[1..])
      case Some(c) => [c] + EncodeAll(pack, items[1..])
  }

  function DecodeAll(unpack: Packer, clips: seq<Clip>): seq<Item> {
    if clips == [] then []
    else
      match FromProto(unpack, clips[0])
      case None => DecodeAll(unpack, clips[1..])
      case Some(item) => [item] + DecodeAll(unpack, clips[1..])
  }

  predicate Supported(item: Item) {
    !item.FileUrl? && !item.Unsupported?
  }

  function SupportedOnly(items: seq<Item>): seq<Item> {
    if items == [] then []
    else if Supported(items[0]) then [items[0]] + SupportedOnly(items[1..])
    else SupportedOnly(items[1..])
  }

  /** What of an item the wire format can carry: sizes wrap, and a special item may lose its data to its name. */
  predicate Fits(pack: Packer, item: Item) {
    match item
    case Rgba(w, h, _) => ToUsize(ToI32(w)) == w && ToUsize(ToI32(h)) == h
    case Special(name, data) => Shrinks(pack, data) || data == Utf8.Encode(name)
    case _ => true
  }

  /** One item comes back unchanged exactly when it fits. */
  lemma ItemRoundTrip(pack: Packer, unpack: Packer, item: Item)
    requires Undoes(unpack, pack) && Supported(item)
    ensures ToProto(pack, item).Some?
    ensures FromProto(unpack, ToProto(pack, item).value).Some?
    ensures FromProto(unpack, ToProto(pack, item).value) == Some(item) <==> Fits(pack, item)
  {
    match item
    case Text(s) => TextRoundTrip(pack, unpack, s);
    case Rtf(s) => TextRoundTrip(pack, unpack, s);
    case Html(s) => TextRoundTrip(pack, unpack, s);
    case Svg(s) => TextRoundTrip(pack, unpack, s);
    case Rgba(_, _, pixels) => assert unpack(pack(pixels)) == pixels;
    case Png(_) =>
    case Special(name, data) => assert unpack(pack(data)) == data;
  }

  /** The bytes of an item, beside its sizes and its name. */
  function DataOf(item: Item): seq<Byte>
    requires Supported(item)
  {
    match item
    case Text(s) => Utf8.Encode(s)
    case Rtf(s) => Utf8.Encode(s)
    case Html(s) => Utf8.Encode(s)
    case Svg(s) => Utf8.Encode(s)
    case Rgba(_, _, pixels) => pixels
    case Png(png) => png
    case Special(_, data) => data
  }

  /**
   On the wire an item is compressed exactly if that makes it shorter, PNG never; only raw
   images carry sizes and only special items a name.
   */
  lemma WireForm(pack: Packer, item: Item)
    requires Supported(item)
    ensures var c, data := ToProto(pack, item).value, DataOf(item);
      && (c.compress <==> !item.Png? && |pack(data)| < |data|)
      && (!item.Special? ==> |c.content| == if item.Png? then |data| else Min(|pack(data)|, |data|))
      && (!item.Rgba? ==> c.width == c.height == 0)
      && c.specialName == (if item.Special? then item.name else "")
  {
  }

  lemma TextRoundTrip(pack: Packer, unpack: Packer, s: string)
    requires Undoes(unpack, pack)
    ensures var c := PlainToProto(pack, s, TextF);
      Utf8.Decode(if c.compress then unpack(c.content) else c.content) == Some(s)
  {
    Utf8.DecodeEncode(s);
  }

  /** The sizes that survive two casts are those below 2^31 and the last 2^31 of the 64-bit range. */
  lemma SizesThatFit(n: nat)
    requires n < TWO64
    ensures ToUsize(ToI32(n)) == n <==> n < TWO31 || n >= TWO64 - TWO31
  {
    var high, low := n / TWO32, n % TWO32;
    assert n == TWO32 * high + low && high < TWO32;
    WidenedSize(low);
  }

  lemma WidenedSize(low: nat)
    requires low < TWO32
    ensures ToUsize(ToI32(low)) == if low < TWO31 then low else TWO64 - TWO32 + low
  {
  }

  ghost predicate AllFit(pack: Packer, items: seq<Item>) {
    forall i :: 0 <= i < |items| ==> Supported(items[i]) ==> Fits(pack, items[i])
  }

  lemma AllFitSplit(pack: Packer, items: seq<Item>)
    requires items != []
    ensures AllFit(pack, items) <==> (Supported(items[0]) ==> Fits(pack, items[0])) && AllFit(pack, items[1..])
  {
    if (Supported(items[0]) ==> Fits(pack, items[0])) && AllFit(pack, items[1..]) {
      forall i | 0 <= i < |items| ensures Supported(items[i]) ==> Fits(pack, items[i]) {
        if i > 0 {
          assert items[i] == items[1..][i - 1];
        }
      }
    }
    if AllFit(pack, items) {
      forall i | 0 <= i < |items[1..]| ensures Supported(items[1..][i]) ==> Fits(pack, items[1..][i]) {
        assert items[1..][i] == items[i + 1];
      }
    }
  }

  /** The first supported item decodes to one item, and to itself exactly when it fits. */
  lemma EncodeHead(pack: Packer, unpack: Packer, items: seq<Item>) returns (got: Item)
    requires Undoes(unpack, pack) && items != [] && Supported(items[0])
    ensures DecodeAll(unpack, EncodeAll(pack, items)) == [got] + DecodeAll(unpack, EncodeAll(pack, items[1..]))
    ensures got == items[0] <==> Fits(pack, items[0])
  {
    ItemRoundTrip(pack, unpack, items[0]);
    got := FromProto(unpack, ToProto(pack, items[0]).value).value;
    var clips := EncodeAll(pack, items);
    assert clips[1..] == EncodeAll(pack, items[1..]);
  }

  /**
   A list of items comes back with exactly its unsupported kinds removed, in order, if
   and only if every item fits: text, RTF, HTML, PNG and SVG always do, raw images when
   their sizes survive the casts, special items when compression shrinks them or their
   data is their own name.
   */
  lemma {:induction false} ListRoundTrip(pack: Packer, unpack: Packer, items: seq<Item>)
    requires Undoes(unpack, pack)
    ensures DecodeAll(unpack, EncodeAll(pack, items)) == SupportedOnly(items) <==> AllFit(pack, items)
    ensures |DecodeAll(unpack, EncodeAll(pack, items))| == |SupportedOnly(items)|
  {
    if items != [] {
      ListRoundTrip(pack, unpack, items[1..]);
      AllFitSplit(pack, items);
      if Supported(items[0]) {
        var got := EncodeHead(pack, unpack, items);
        ConsEqual(got, items[0], DecodeAll(unpack, EncodeAll(pack, items[1..])), SupportedOnly(items[1..]));
      } else {
        EncodeSkips(pack, items);
      }
    }
  }

  lemma EncodeSkips(pack: Packer, items: seq<Item>)
    requires items != [] && !Supported(items[0])
    ensures EncodeAll(pack, items) == EncodeAll(pack, items[1..]) && SupportedOnly(items) == SupportedOnly(items[1..])
  {
  }

  lemma ConsEqual<T>(a: T, b: T, x: seq<T>, y: seq<T>)
    ensures [a] + x == [b] + y <==> a == b && x == y
  {
    if [a] + x == [b] + y {
      assert a == ([a] + x)[0] && b == ([b] + y)[0];
      assert x == ([a] + x)[1..] && y == ([b] + y)[1..];
    }
  }

  /** A special item always arrives under its name; its data arrives, or is replaced by the name. */
  lemma SpecialDelivered(pack: Packer, unpack: Packer, name: string, data: seq<Byte>)
    requires Undoes(unpack, pack)
    ensures FromProto(unpack, ToProto(pack, Special(name, data)).value)
      == Some(Special(name, if Shrinks(pack, data) then data else Utf8.Encode(name)))
  {
    assert unpack(pack(data)) == data;
  }

  /** A compressor that never helps delivers the wrong bytes for every special item but one. */
  lemma SpecialLost(name: string, data: seq<Byte>)
    requires data != Utf8.Encode(name)
    ensures var id: Packer := d => d;
      FromProto(id, ToProto(id, Special(name, data)).value) == Some(Special(name, Utf8.Encode(name)))
  {
  }
}
