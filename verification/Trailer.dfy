/** The configuration trailer that scripts/elrs_targets.py puts behind a firmware image. */
module Trailer {
  import opened ByteStrings
  import opened WireFormat

  const PRODUCT_NAME_SIZE: nat := 128
  const DEVICE_NAME_SIZE: nat := 16
  const OPTIONS_SIZE: nat := 512
  const LAYOUT_SIZE: nat := 2048
  const TRAILER_SIZE: nat := 2704

  /** The image's own mark, and the filler for an image that ends early. */
  const MAGIC := ToByte(0xE9)
  const FILLER := ToByte(0xFF)

  datatype Result<T> = Success(value: T) | Failure

  // ---- Where the image ends -----------------------------------------------------------------

  /** The position behind `n` more segments, each a header of 8 bytes, whose last 4 are the
      length of the data, and the data; it may lie beyond the end of the file, but a header
      must not. */
  ghost function Walk(image: Bytes, pos: nat, n: nat): (r: Result<nat>)
    decreases n
  {
    if n == 0 then Success(pos)
    else if pos + 8 > |image| then Failure
    else Walk(image, pos + 8 + FromLe(image[pos + 4..pos + 8]), n - 1)
  }

  /** Rounded up to the next 16 bytes; a multiple of 16 goes up by 16 itself. */
  function RoundedUp(pos: nat): (r: nat)
    ensures r % 16 == 0 && pos < r <= pos + 16
  {
    (pos + 16) / 16 * 16
  }

  const BOOT: nat := 0x1000

  /** Where the trailer goes. Two segments mean an ESP8266 image, whose application starts
      at 0x1000; others carry a digest of 32 bytes behind the last segment. */
  ghost function FirmwareEnd(image: Bytes): (r: Result<nat>)
  {
    if |image| < 8 || image[0] != MAGIC then Failure
    else if ToNat(image[1]) == 2 then
      if |image| < BOOT + 8 then Failure else Rounded(Walk(image, BOOT + 8, ToNat(image[BOOT + 1])), 0)
    else Rounded(Walk(image, 24, ToNat(image[1])), 32)
  }

  ghost function Rounded(r: Result<nat>, extra: nat): (s: Result<nat>)
  {
    if r.Success? then Success(RoundedUp(r.value) + extra) else Failure
  }

  /** The reads through a file position, as the script does them. */
  method FindFirmwareEnd(image: Bytes) returns (r: Result<nat>)
    ensures r == FirmwareEnd(image)
  {
    hide ToNat, ToByte, RoundedUp;
    if |image| < 8 {
      return Failure;
    }
    if image[0] != MAGIC {
      return Failure;
    }
    var segments: nat, is8285: bool, pos: nat := ToNat(image[1]), false, 24;
    if segments == 2 {
      if |image| < BOOT + 8 {
        return Failure;
      }
      segments, is8285, pos := ToNat(image[BOOT + 1]), true, BOOT + 8;
    }
    ghost var begin, all := pos, segments;
    var left: nat := segments;
    while left > 0
      invariant left <= segments
      invariant Walk(image, pos, left) == Walk(image, begin, all)
    {
      if pos + 8 > |image| {
        return Failure;
      }
      var size := ReadSize(image, pos + 4);
      pos := pos + 8 + size;
      left := left - 1;
    }
    var end := RoundedUp(pos);
    r := Success(if is8285 then end else end + 32);
  }

  method ReadSize(image: Bytes, pos: nat) returns (size: nat)
    requires pos + 4 <= |image|
    ensures size == FromLe(image[pos..pos + 4])
  {
    hide ToNat;
    size := 0;
    for i := 0 to 4
      invariant size == FromLe(image[pos..pos + i])
    {
      FromLeSnoc(image[pos..pos + i], image[pos + i]);
      assert image[pos..pos + i + 1] == image[pos..pos + i] + [image[pos + i]];
      size := size + ToNat(image[pos + i]) * Pow256(i);
    }
  }

  // ---- The trailer ------------------------------------------------------------------------------

  /** A text in a field of fixed size: cut off, or filled up with zeros. */
  ghost function Fixed(text: Bytes, size: nat): (field: Bytes)
    ensures |field| == size
    ensures |text| <= size ==> field == text + Zeros(size - |text|)
    ensures |text| > size ==> field == text[..size]
  {
    assert |text| <= size ==> Zeros(size)[..size - |text|] == Zeros(size - |text|);
    (text + Zeros(size))[..size]
  }

  /** What a reader takes for the text of a field: up to a zero, or the whole field. */
  ghost function TextIn(field: Bytes): (text: Bytes)
    ensures text <= field && ZERO !in text
    ensures |text| < |field| ==> field[|text|] == ZERO
  {
    if field == [] || field[0] == ZERO then [] else [field[0]] + TextIn(field[1..])
  }

  lemma {:induction false} TextIsUnique(field: Bytes, text: Bytes)
    requires text <= field && ZERO !in text && (|text| < |field| ==> field[|text|] == ZERO)
    ensures TextIn(field) == text
  {
    var t := TextIn(field);
    assert forall i :: 0 <= i < |text| ==> field[i] == text[i] && field[i] != ZERO;
    assert forall i :: 0 <= i < |t| ==> field[i] == t[i] && field[i] != ZERO;
  }

  /** A text is read back as it was exactly if it is not too long and holds no zero; one
      that is too long is read back cut off. */
  lemma FixedReadsBackIff(text: Bytes, size: nat)
    ensures TextIn(Fixed(text, size)) == text <==> |text| <= size && ZERO !in text
    ensures |text| > size && ZERO !in text ==> TextIn(Fixed(text, size)) == text[..size]
  {
    var field := Fixed(text, size);
    if ZERO !in text {
      TextIsUnique(field, if |text| <= size then text else text[..size]);
    }
  }

  datatype Product = Product(name: Bytes, luaName: Bytes)

  /** The trailer, unless the layout does not fit with its terminating zero. */
  ghost function BuildTrailer(product: Product, options: Bytes, layout: Bytes): (r: Result<Bytes>)
    ensures r.Failure? <==> |layout| >= LAYOUT_SIZE
    ensures r.Success? ==> |r.value| == TRAILER_SIZE
  {
    if |layout| >= LAYOUT_SIZE then Failure
    else Success(Fixed(product.name, PRODUCT_NAME_SIZE) + Fixed(product.luaName, DEVICE_NAME_SIZE)
                 + Fixed(options, OPTIONS_SIZE) + Fixed(layout, LAYOUT_SIZE))
  }

  /** The four fields of a trailer. */
  ghost function NameField(t: Bytes): Bytes
    requires |t| == TRAILER_SIZE
  {
    t[..128]
  }

  ghost function DeviceField(t: Bytes): Bytes
    requires |t| == TRAILER_SIZE
  {
    t[128..144]
  }

  ghost function OptionsField(t: Bytes): Bytes
    requires |t| == TRAILER_SIZE
  {
    t[144..656]
  }

  ghost function LayoutField(t: Bytes): Bytes
    requires |t| == TRAILER_SIZE
  {
    t[656..]
  }

  /** Exactly which texts survive: the layout that is accepted, if it holds no zero; the
      product name, the device name and the options only if they fit their fields, which
      nothing checks. */
  lemma FieldsReadBackIff(product: Product, options: Bytes, layout: Bytes)
    requires |layout| < LAYOUT_SIZE
    ensures var t := BuildTrailer(product, options, layout).value;
            && (TextIn(NameField(t)) == product.name <==> |product.name| <= PRODUCT_NAME_SIZE && ZERO !in product.name)
            && (TextIn(DeviceField(t)) == product.luaName <==> |product.luaName| <= DEVICE_NAME_SIZE && ZERO !in product.luaName)
            && (TextIn(OptionsField(t)) == options <==> |options| <= OPTIONS_SIZE && ZERO !in options)
            && (TextIn(LayoutField(t)) == layout <==> ZERO !in layout)
  {
    hide Fixed, TextIn;
    FieldsAre(product, options, layout);
    FixedReadsBackIff(product.name, PRODUCT_NAME_SIZE);
    FixedReadsBackIff(product.luaName, DEVICE_NAME_SIZE);
    FixedReadsBackIff(options, OPTIONS_SIZE);
    FixedReadsBackIff(layout, LAYOUT_SIZE);
  }

  lemma FieldsAre(product: Product, options: Bytes, layout: Bytes)
    requires |layout| < LAYOUT_SIZE
    ensures var t := BuildTrailer(product, options, layout).value;
            && NameField(t) == Fixed(product.name, PRODUCT_NAME_SIZE)
            && DeviceField(t) == Fixed(product.luaName, DEVICE_NAME_SIZE)
            && OptionsField(t) == Fixed(options, OPTIONS_SIZE)
            && LayoutField(t) == Fixed(layout, LAYOUT_SIZE)
  {
    hide Fixed;
  }

  /** A product name of 129 letters loses its last one without a word, and with it is
      mistaken for another name. */
  lemma LongNameIsCut(options: Bytes, layout: Bytes)
    requires |layout| < LAYOUT_SIZE
    ensures var name := seq(129, i => MAGIC);
            var t := BuildTrailer(Product(name, []), options, layout);
            && t.Success? && TextIn(NameField(t.value)) == name[..128] != name
            && t == BuildTrailer(Product(name[..128], []), options, layout)
  {
    hide TextIn;
    var name := seq(129, i => MAGIC);
    assert MAGIC != ZERO by {
      assert ToNat(MAGIC) == 0xE9 && ToNat(ZERO) == 0;
    }
    FieldsAre(Product(name, []), options, layout);
    FixedReadsBackIff(name, PRODUCT_NAME_SIZE);
    assert Fixed(name, PRODUCT_NAME_SIZE) == Fixed(name[..128], PRODUCT_NAME_SIZE);
  }

  // ---- Writing it --------------------------------------------------------------------------------

  /** The image up to its end, filled up if it is shorter. */
  ghost function Body(image: Bytes, end: nat): (b: Bytes)
    ensures |b| == end
  {
    if |image| >= end then image[..end] else image + seq(end - |image|, i => FILLER)
  }

  ghost function Configured(image: Bytes, trailer: Bytes): (r: Result<Bytes>)
  {
    match FirmwareEnd(image)
    case Failure => Failure
    case Success(end) => Success(Body(image, end) + trailer)
  }

  method Configure(image: Bytes, trailer: Bytes) returns (r: Result<Bytes>)
    ensures r == Configured(image, trailer)
  {
    var found := FindFirmwareEnd(image);
    if found.Failure? {
      return Failure;
    }
    var end := found.value;
    var body := if |image| > end then image[..end] else image;
    body := body + seq(end - |body|, i => FILLER);
    assert body == Body(image, end);
    r := Success(body + trailer);
  }

  /** Two images that agree up to some point, or as far as the first one goes. */
  ghost predicate AgreeUpTo(a: Bytes, b: Bytes, end: nat)
  {
    && (|a| < end ==> |a| <= |b| && a == b[..|a|])
    && (|a| >= end ==> |b| >= end && a[..end] == b[..end])
  }

  lemma AgreeAt(a: Bytes, b: Bytes, end: nat, pos: nat, n: nat)
    requires AgreeUpTo(a, b, end) && pos + n <= |a| && pos + n <= end
    ensures pos + n <= |b| && a[pos..pos + n] == b[pos..pos + n]
  {
    var m := if |a| < end then |a| else end;
    assert a[..m] == b[..m];
    forall k | pos <= k < pos + n
      ensures a[k] == b[k]
    {
      assert a[k] == a[..m][k] && b[k] == b[..m][k];
    }
  }

  /** No header read lies behind the position found. */
  lemma {:induction false} WalkGrows(image: Bytes, pos: nat, n: nat)
    requires Walk(image, pos, n).Success?
    ensures Walk(image, pos, n).value >= pos + 8 * n
    decreases n
  {
    hide FromLe;
    if n > 0 {
      WalkGrows(image, pos + 8 + FromLe(image[pos + 4..pos + 8]), n - 1);
    }
  }

  lemma {:induction false} WalksAlike(a: Bytes, b: Bytes, end: nat, pos: nat, n: nat)
    requires Walk(a, pos, n).Success? && Walk(a, pos, n).value <= end && AgreeUpTo(a, b, end)
    ensures Walk(b, pos, n) == Walk(a, pos, n)
    decreases n
  {
    hide FromLe, AgreeUpTo;
    WalkGrows(a, pos, n);
    if n > 0 {
      AgreeAt(a, b, end, pos + 4, 4);
      WalksAlike(a, b, end, pos + 8 + FromLe(a[pos + 4..pos + 8]), n - 1);
    }
  }

  /** The end depends on nothing behind it. */
  lemma EndDependsOnItsImage(a: Bytes, b: Bytes)
    requires FirmwareEnd(a).Success? && AgreeUpTo(a, b, FirmwareEnd(a).value)
    ensures FirmwareEnd(b) == FirmwareEnd(a)
  {
    hide ToNat, ToByte, Walk, AgreeUpTo;
    var end := FirmwareEnd(a).value;
    if ToNat(a[1]) == 2 {
      WalkGrows(a, BOOT + 8, ToNat(a[BOOT + 1]));
      HeadAlike(a, b, end, BOOT);
      HeadAlike(a, b, end, 0);
      WalksAlike(a, b, end, BOOT + 8, ToNat(a[BOOT + 1]));
    } else {
      WalkGrows(a, 24, ToNat(a[1]));
      HeadAlike(a, b, end, 0);
      WalksAlike(a, b, end, 24, ToNat(a[1]));
    }
  }

  lemma HeadAlike(a: Bytes, b: Bytes, end: nat, at: nat)
    requires AgreeUpTo(a, b, end) && at + 8 <= |a| && at + 8 <= end
    ensures at + 8 <= |b| && b[at] == a[at] && b[at + 1] == a[at + 1]
  {
    hide AgreeUpTo;
    AgreeAt(a, b, end, at, 8);
    assert a[at..at + 8][0] == b[at..at + 8][0] && a[at..at + 8][1] == b[at..at + 8][1];
  }

  /** The overwrite law: configuring an image that is already configured replaces its
      trailer. */
  lemma ConfiguringOverwrites(image: Bytes, a: Bytes, b: Bytes)
    requires FirmwareEnd(image).Success?
    ensures var first := Configured(image, a);
            first.Success? && Configured(first.value, b) == Configured(image, b)
  {
    hide FirmwareEnd;
    var end := FirmwareEnd(image).value;
    var first := Body(image, end) + a;
    assert first[..end] == Body(image, end);
    assert AgreeUpTo(image, first, end) by {
      if |image| < end {
        assert image == Body(image, end)[..|image|] == first[..|image|];
      }
    }
    EndDependsOnItsImage(image, first);
  }

  /** The result is the part of the image before the position found, and the trailer at
      that position, which is a multiple of 16. */
  lemma TrailerIsPlaced(image: Bytes, product: Product, options: Bytes, layout: Bytes)
    requires FirmwareEnd(image).Success? && |layout| < LAYOUT_SIZE
    ensures var end, trailer := FirmwareEnd(image).value, BuildTrailer(product, options, layout).value;
            var out := Configured(image, trailer).value;
            && end % 16 == 0 && |out| == end + TRAILER_SIZE && out[end..] == trailer
            && (|image| >= end ==> out[..end] == image[..end])
            && (|image| < end ==> out[..|image|] == image)
  {
    hide Walk, ToNat, ToByte;
    var end, trailer := FirmwareEnd(image).value, BuildTrailer(product, options, layout).value;
    var out := Configured(image, trailer).value;
    assert out[..end] == Body(image, end) && out[end..] == trailer;
    if |image| < end {
      assert out[..|image|] == Body(image, end)[..|image|];
    }
  }

  /** Only the bytes before the position found matter. */
  lemma NothingBehindMatters(a: Bytes, b: Bytes, trailer: Bytes)
    requires FirmwareEnd(a).Success? && |a| >= FirmwareEnd(a).value && |b| >= FirmwareEnd(a).value
    requires a[..FirmwareEnd(a).value] == b[..FirmwareEnd(a).value]
    ensures Configured(a, trailer) == Configured(b, trailer)
  {
    hide FirmwareEnd;
    EndDependsOnItsImage(a, b);
  }
}
