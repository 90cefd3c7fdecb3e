/** Boot Server Discovery Protocol: boot images in vendor options in the options of a DHCPv4 packet. */
module Bsdp {
  import opened Wire
  import opened V4Options
  import V4Marshal
  import V4Packet

  const VENDOR_SPECIFIC: byte := 43
  const BOOT_IMAGE_LIST: byte := 9

  datatype BootImage = BootImage(isInstall: bool, imageType: byte, index: u16, name: Bytes)

  /** The install flag is the top bit; a type of 128 or more sets it too. */
  function TypeByte(b: BootImage): byte {
    if b.isInstall && b.imageType < 128 then 128 + b.imageType else b.imageType
  }

  /** The length of the name is cut to 8 bits. */
  function EncodeImage(b: BootImage): Bytes {
    [TypeByte(b), 0] + Put16(b.index) + [|b.name| % 256] + b.name
  }

  function EncodeImages(images: seq<BootImage>): Bytes {
    if images == [] then [] else EncodeImage(images[0]) + EncodeImages(images[1..])
  }

  /** Fewer than five bytes at the end are not an error. */
  function DecodeImages(data: Bytes): Option<seq<BootImage>> {
    if |data| < 5 then Some([])
    else
      var n: nat := data[4];
      if 5 + n > |data| then None
      else
        Prefixed([ImageAt(data)], DecodeImages(data[5 + n..]))
  }

  function ImageAt(data: Bytes): BootImage
    requires |data| >= 5 && 5 + data[4] <= |data|
  {
    BootImage(data[0] >= 128, data[0] % 128, Get16(data[2..4]), data[5..5 + data[4]])
  }

  predicate Fits(b: BootImage) {
    b.imageType < 128 && |b.name| <= 255
  }

  predicate AllFit(images: seq<BootImage>) {
    forall i | 0 <= i < |images| :: Fits(images[i])
  }

  lemma {:induction false} ImageReads(b: BootImage, rest: Bytes)
    ensures var data := EncodeImage(b) + rest;
            && |data| >= 5 && data[4] == |b.name| % 256 && 5 + data[4] <= |data|
            && ImageAt(data) == BootImage(b.isInstall || b.imageType >= 128, b.imageType % 128, b.index,
                                          b.name[..|b.name| % 256])
            && (Fits(b) ==> ImageAt(data) == b && data[5 + data[4]..] == rest)
            && (ImageAt(data) == b ==> Fits(b))
  {
    var data := EncodeImage(b) + rest;
    var n: nat := |b.name| % 256;
    assert data[2..4] == Put16(b.index) && data[4] == n && data[5..] == b.name + rest;
    assert data[5..5 + n] == b.name[..n];
    Get16Put16(b.index);
    if Fits(b) {
      assert data[5..5 + n] == b.name && data[5 + n..] == rest;
    }
  }

  /** A list is read back, with or without a short rest behind it, exactly when every type and every name fits. */
  lemma {:induction false} ImagesRoundTripIff(images: seq<BootImage>, rest: Bytes)
    requires |rest| < 5
    ensures DecodeImages(EncodeImages(images) + rest) == Some(images) <==> AllFit(images)
  {
    if images == [] {
      assert [] + rest == rest;
    } else {
      var later := EncodeImages(images[1..]) + rest;
      ImageReads(images[0], later);
      ImagesRoundTripIff(images[1..], rest);
      FirstImage(images, EncodeImage(images[0]) + later, later);
      var first, others := EncodeImage(images[0]), EncodeImages(images[1..]);
      assert first + others + rest == first + (others + rest);
      AllFitCons(images);
    }
  }

  lemma {:induction false} AllFitCons(images: seq<BootImage>)
    requires images != []
    ensures AllFit(images) <==> Fits(images[0]) && AllFit(images[1..])
  {
    assert images == [images[0]] + images[1..];
  }

  lemma {:induction false} FirstImage(images: seq<BootImage>, data: Bytes, later: Bytes)
    requires images != [] && |data| >= 5 && 5 + data[4] <= |data|
    requires ImageAt(data) == images[0] <==> Fits(images[0])
    requires Fits(images[0]) ==> data[5 + data[4]..] == later
    ensures DecodeImages(data) == Some(images) <==>
            Fits(images[0]) && DecodeImages(later) == Some(images[1..])
  {
    var n: nat := data[4];
    var rest := DecodeImages(data[5 + n..]);
    if rest.Some? && [ImageAt(data)] + rest.value == images {
      assert images[0] == ImageAt(data) && images[1..] == rest.value;
    }
    if Fits(images[0]) && DecodeImages(later) == Some(images[1..]) {
      assert images == [images[0]] + images[1..];
    }
  }

  /** An option that is missing, empty or not parseable gives no vendor options. */
  function GetVendorOptions(o: OptMap): Option<OptMap> {
    if Get(o, VENDOR_SPECIFIC) == [] then None
    else
      var p := Parse(map[], o[VENDOR_SPECIFIC], false);
      if p.error.Some? then None else Some(p.options)
  }

  function BootImages(v: OptMap): seq<BootImage> {
    var images := DecodeImages(Get(v, BOOT_IMAGE_LIST));
    if images.None? then [] else images.value
  }

  /** There are vendor options exactly when option 43 has a value and that is grammatical, without an End. */
  lemma {:induction false} VendorOptionsThereIff(o: OptMap)
    ensures GetVendorOptions(o).Some? <==> 43 in o && o[43] != [] && Grammatical(o[43], false)
    ensures GetVendorOptions(o).Some? ==> Parse(map[], o[43], false) == Parsed(GetVendorOptions(o).value, None)
  {
    if 43 in o && o[43] != [] {
      V4Options.AcceptIff(map[], o[43], false);
    }
  }

  /** Suboption 9 gives its images, or none at all when a name in it is cut off. */
  lemma {:induction false} BootImagesOf(v: OptMap)
    ensures 9 !in v ==> BootImages(v) == []
    ensures 9 in v ==> BootImages(v) == if DecodeImages(v[9]).Some? then DecodeImages(v[9]).value else []
  {
  }

  lemma {:induction false} VendorOptionsIff(o: OptMap, vendor: OptMap)
    requires Get(o, VENDOR_SPECIFIC) == V4Marshal.Marshal(vendor)
    ensures GetVendorOptions(o) == Some(vendor) <==> V4Marshal.Kept(vendor) && vendor != map[]
  {
    var b := V4Marshal.Marshal(vendor);
    V4Marshal.RoundTripIff(vendor, [], false);
    assert b + [] == b;
    if vendor == map[] {
      V4Marshal.MarshalNothing();
    }
    VendorOptionsFrom(o, vendor, b);
  }

  lemma {:induction false} VendorOptionsFrom(o: OptMap, vendor: OptMap, b: Bytes)
    requires Get(o, VENDOR_SPECIFIC) == b
    requires vendor == map[] ==> b == []
    requires Parse(map[], b, false) == Parsed(vendor, None) <==> V4Marshal.Kept(vendor)
    ensures GetVendorOptions(o) == Some(vendor) <==> V4Marshal.Kept(vendor) && vendor != map[]
  {
  }

  lemma {:induction false} BootImagesIff(v: OptMap, images: seq<BootImage>)
    requires Get(v, BOOT_IMAGE_LIST) == EncodeImages(images)
    ensures BootImages(v) == images <==> AllFit(images)
  {
    ImagesRoundTripIff(images, []);
    assert EncodeImages(images) + [] == EncodeImages(images);
  }

  /**
   Through both levels of options and the packet around them, however long the list
   and however often either level splits it: the client finds the images sent.
   */
  lemma {:induction false} BootImagesReachClient(p: V4Packet.Packet, vendor: OptMap, images: seq<BootImage>)
    requires V4Packet.Serialisable(p) && V4Packet.Survives(p)
    requires Get(p.options, 43) == V4Marshal.Marshal(vendor) && V4Marshal.Kept(vendor)
    requires Get(vendor, 9) == EncodeImages(images) && images != [] && AllFit(images)
    ensures var r := V4Packet.Decode(V4Packet.Encode(p));
            && r.Ok?
            && GetVendorOptions(r.value.options) == Some(vendor)
            && BootImages(vendor) == images
  {
    V4Packet.RoundTripIff(p);
    VendorOptionsIff(p.options, vendor);
    BootImagesIff(vendor, images);
  }

  // The code, over a cursor.

  method ImagesFromBytes(data: Bytes) returns (r: Option<seq<BootImage>>)
    ensures r == DecodeImages(data)
  {
    var images: seq<BootImage> := [];
    var buf := new Lexer(data);
    PrefixedByNothing(DecodeImages(data));
    while buf.Has(5)
      invariant fresh(buf) && !buf.failed
      invariant DecodeImages(data) == Prefixed(images, DecodeImages(buf.data))
      decreases |buf.data|
    {
      ghost var before := buf.data;
      var byte0 := buf.Read8();
      var _ := buf.Read8();
      var index := buf.Read16();
      var n := buf.Read8();
      var name := buf.Consume(n);
      ImageStep(before);
      if buf.failed {
        return None;
      }
      var image := BootImage(byte0 >= 128, byte0 % 128, index, name.value);
      PrefixedByOne(images, image, DecodeImages(buf.data));
      images := images + [image];
    }
    assert images + [] == images;
    r := Some(images);
  }

  /** One turn of the loop, in terms of what is read. */
  lemma {:induction false} ImageStep(data: Bytes)
    requires |data| >= 5
    ensures var a := data[1..][1..]; var b := a[2..]; var c := b[1..];
            && b[0] == data[4]
            && (b[0] > |c| ==> DecodeImages(data) == None)
            && (b[0] <= |c| ==>
                  DecodeImages(data) ==
                  Prefixed([BootImage(data[0] >= 128, data[0] % 128, Get16(a[..2]), c[..b[0]])], DecodeImages(c[b[0]..])))
  {
    var n: nat := data[4];
    assert data[1..][1..] == data[2..] && data[2..][..2] == data[2..4] && data[2..][2..] == data[4..];
    assert data[4..][1..] == data[5..];
    if 5 + n <= |data| {
      assert data[5..][..n] == data[5..5 + n] && data[5..][n..] == data[5 + n..];
    }
  }

  method ImagesToBytes(images: seq<BootImage>) returns (b: Bytes)
    ensures b == EncodeImages(images)
  {
    var buf := new Lexer([]);
    for i := 0 to |images|
      invariant fresh(buf)
      invariant buf.data + EncodeImages(images[i..]) == EncodeImages(images)
    {
      ghost var before := buf.data;
      var byte0 := images[i].imageType;
      if images[i].isInstall && byte0 < 128 {
        byte0 := byte0 + 128;
      }
      buf.Write([byte0]);
      buf.Write([0]);
      buf.Write(Put16(images[i].index));
      buf.Write([|images[i].name| % 256]);
      buf.Write(images[i].name);
      assert buf.data == before + EncodeImage(images[i]);
      EncodeImageStep(images, i, before);
    }
    b := buf.data;
  }

  lemma {:induction false} EncodeImageStep(images: seq<BootImage>, i: nat, before: Bytes)
    requires i < |images|
    ensures before + EncodeImages(images[i..]) == before + EncodeImage(images[i]) + EncodeImages(images[i + 1..])
  {
    assert images[i..][1..] == images[i + 1..];
  }
}
