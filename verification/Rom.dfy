/** The configuration ROM: variable-length descriptors printed to and parsed from an image in
    which every 4-byte word carries two bytes. */
module Rom {
  import opened Numbers

  type Byte = b: nat | b < 256
  type Word = w: nat | w < 0x1_0000_0000

  datatype Option<T> = None | Some(value: T)
  datatype Error = HighWord | BadZip | InvalidType | TooLarge | NoSpace | NoEnd
  datatype Result<T> = Ok(value: T) | Err(error: Error)

  datatype Kind = Invalid | Text | BigInt | Json
  /** ROMDescriptor; the value is a string of bytes. */
  datatype Desc = Desc(kind: Kind, value: seq<Byte>)

  /** zlib as given: what it does is not part of the model. */
  datatype Zip = Zip(deflate: seq<Byte> -> seq<Byte>, inflate: seq<Byte> -> Option<seq<Byte>>)

  const MAX_WORDS := 0x4000

  function Code(k: Kind): nat {
    match k case Invalid => 0 case Text => 1 case BigInt => 2 case Json => 3
  }

  function KindOf(c: nat): Kind {
    if c == 0 then Invalid else if c == 1 then Text else if c == 2 then BigInt else Json
  }

  /* ---- hex ---- */

  // hexchar
  function HexChar(n: nat): Byte {
    var d := n % 16;
    if d <= 9 then '0' as int + d else 'a' as int + d - 10
  }

  // unhexchar
  function UnhexChar(c: Byte): (n: nat)
    ensures n < 16
  {
    if '0' as int <= c <= '9' as int then c - '0' as int
    else if 'A' as int <= c <= 'F' as int then c - 'A' as int + 10
    else if 'a' as int <= c <= 'f' as int then c - 'a' as int + 10
    else 0
  }

  function Nibble(v: seq<Byte>, i: nat): nat {
    if i < |v| then UnhexChar(v[i]) else 0
  }

  /** Two digits a byte, the high one first; an odd last digit is a high one. */
  function HexBytes(v: seq<Byte>): (b: seq<Byte>) {
    seq((|v| + 1) / 2, i requires 0 <= i < (|v| + 1) / 2 => Nibble(v, 2 * i) * 16 + Nibble(v, 2 * i + 1))
  }

  function HexString(b: seq<Byte>): (v: seq<Byte>) {
    seq(2 * |b|, j requires 0 <= j < 2 * |b| => if j % 2 == 0 then HexChar(b[j / 2] / 16) else HexChar(b[j / 2]))
  }

  function Lower(c: Byte): Byte {
    if 'A' as int <= c <= 'F' as int then c + 32
    else if '0' as int <= c <= '9' as int || 'a' as int <= c <= 'f' as int then c
    else '0' as int
  }

  /** Lower case, anything but a hex digit a zero, and zeros behind up to a multiple of four digits. */
  function NormalHex(v: seq<Byte>): seq<Byte> {
    seq((|v| + 3) / 4 * 4, i requires 0 <= i < (|v| + 3) / 4 * 4 => if i < |v| then Lower(v[i]) else '0' as int)
  }

  /* ---- contents and words ---- */

  function Even(c: seq<Byte>): (e: seq<Byte>)
    ensures |e| % 2 == 0 && c <= e && |e| <= |c| + 1
  {
    if |c| % 2 == 0 then c else c + [0]
  }

  /** Up to the first NUL. */
  function UpToNul(c: seq<Byte>): (t: seq<Byte>)
    ensures t <= c && 0 !in t && (t == c || c[|t|] == 0)
  {
    if c == [] || c[0] == 0 then [] else [c[0]] + UpToNul(c[1..])
  }

  function Pair(hi: Byte, lo: Byte): Word {
    hi * 256 + lo
  }

  /** Two bytes a word. */
  function Packed(c: seq<Byte>): (w: seq<Word>)
    requires |c| % 2 == 0
    ensures |w| == |c| / 2
  {
    seq(|c| / 2, i requires 0 <= i < |c| / 2 => Pair(c[2 * i], c[2 * i + 1]))
  }

  function Unpacked(w: seq<Word>): (c: seq<Byte>)
    ensures |c| == 2 * |w|
  {
    seq(2 * |w|, j requires 0 <= j < 2 * |w| => if j % 2 == 0 then w[j / 2] / 256 % 256 else w[j / 2] % 256)
  }

  lemma UnpackPack(c: seq<Byte>)
    requires |c| % 2 == 0
    ensures Unpacked(Packed(c)) == c
  {
    forall j | 0 <= j < |c| ensures Unpacked(Packed(c))[j] == c[j] {
      var i := j / 2;
      Halves(c[2 * i], c[2 * i + 1]);
    }
  }

  lemma Halves(hi: Byte, lo: Byte)
    ensures (hi * 256 + lo) / 256 % 256 == hi && (hi * 256 + lo) % 256 == lo
  {
  }

  /* ---- printing ---- */

  function Contents(d: Desc, z: Zip): (c: seq<Byte>)
    ensures |c| % 2 == 0
  {
    match d.kind
    case Invalid => []
    case Text => Even(d.value)
    case BigInt => Even(HexBytes(d.value))
    case Json => Even(z.deflate(d.value))
  }

  /** Header and contents of one descriptor. */
  function Encoded(d: Desc, z: Zip): (w: seq<Word>)
    requires |Contents(d, z)| / 2 < MAX_WORDS
    ensures |w| == 1 + |Contents(d, z)| / 2
  {
    [Code(d.kind) * MAX_WORDS + |Contents(d, z)| / 2] + Packed(Contents(d, z))
  }

  /** The image of a list of descriptors with so many bytes of room, and why there is none. */
  function Image(ds: seq<Desc>, z: Zip, room: nat): Result<seq<Word>> {
    if ds == [] then if room < 4 then Err(NoEnd) else Ok([])
    else if ds[0].kind == Invalid then Err(InvalidType)
    else
      var n := |Contents(ds[0], z)| / 2;
      if n >= MAX_WORDS then Err(TooLarge)
      else if 4 + 4 * n > room then Err(NoSpace)
      else
        var rest := Image(ds[1..], z, room - 4 - 4 * n);
        if rest.Err? then rest else Ok(Encoded(ds[0], z) + rest.value)
  }

  /* ---- parsing ---- */

  function Decoded(k: Kind, c: seq<Byte>, z: Zip): Option<seq<Byte>> {
    match k
    case Invalid => None
    case Text => Some(UpToNul(c))
    case BigInt => Some(HexString(c))
    case Json => z.inflate(c)
  }

  /** The descriptors of an image: it ends with a zero type, the end of the words, or a
      descriptor that claims more words than are left. */
  function Parsed(w: seq<Word>, z: Zip): Result<seq<Desc>> {
    if w == [] then Ok([])
    else if w[0] >= 0x1_0000 then Err(HighWord)
    else
      var t, n := w[0] / MAX_WORDS, w[0] % MAX_WORDS;
      if t == 0 || n > |w| - 1 then Ok([])
      else
        var v := Decoded(KindOf(t), Unpacked(w[1..n + 1]), z);
        if v.None? then Err(BadZip)
        else
          var rest := Parsed(w[n + 1..], z);
          if rest.Err? then rest else Ok([Desc(KindOf(t), v.value)] + rest.value)
  }

  /* ---- the round trip ---- */

  /** Inflating what has been deflated, also with the byte of padding. */
  ghost predicate Inflates(ds: seq<Desc>, z: Zip) {
    forall x | 0 <= x < |ds| && ds[x].kind == Json :: z.inflate(Even(z.deflate(ds[x].value))) == Some(ds[x].value)
  }

  /** The descriptor as it comes back. */
  function Normal(d: Desc): Desc {
    match d.kind
    case Text => d.(value := UpToNul(d.value))
    case BigInt => d.(value := NormalHex(d.value))
    case _ => d
  }

  function Normals(ds: seq<Desc>): (n: seq<Desc>)
    ensures |n| == |ds| && forall x | 0 <= x < |ds| :: n[x] == Normal(ds[x])
  {
    if ds == [] then [] else [Normal(ds[0])] + Normals(ds[1..])
  }

  lemma HexPair(c: Byte, h: nat, l: nat)
    requires h < 16 && l < 16 && c == h * 16 + l
    ensures HexChar(c / 16) == HexChar(h) && HexChar(c) == HexChar(l)
  {
  }

  lemma LowerHex(c: Byte)
    ensures HexChar(UnhexChar(c)) == Lower(c)
  {
  }

  lemma EvenHex(v: seq<Byte>, i: nat)
    requires i < |Even(HexBytes(v))|
    ensures Even(HexBytes(v))[i] == Nibble(v, 2 * i) * 16 + Nibble(v, 2 * i + 1)
  {
    hide UnhexChar, Nibble;
    var b := HexBytes(v);
    if i < |b| {
      assert Even(b)[i] == b[i];
    } else {
      assert Even(b)[i] == 0 && 2 * i >= |v|;
      NoNibble(v, 2 * i);
      NoNibble(v, 2 * i + 1);
    }
  }

  lemma NoNibble(v: seq<Byte>, i: nat)
    requires i >= |v|
    ensures Nibble(v, i) == 0
  {
  }

  lemma HexAt(v: seq<Byte>, j: nat)
    requires j < |NormalHex(v)|
    ensures 2 * |Even(HexBytes(v))| == |NormalHex(v)| && HexString(Even(HexBytes(v)))[j] == NormalHex(v)[j]
  {
    hide HexChar, UnhexChar, Lower, Even, HexBytes;
    assert 2 * |Even(HexBytes(v))| == |NormalHex(v)| by { EvenLength(v); }
    var i := j / 2;
    EvenHex(v, i);
    HexPair(Even(HexBytes(v))[i], Nibble(v, 2 * i), Nibble(v, 2 * i + 1));
    if j < |v| {
      LowerHex(v[j]);
    } else {
      ZeroHex();
    }
  }

  lemma ZeroHex()
    ensures HexChar(0) == '0' as int
  {
  }

  lemma EvenLength(v: seq<Byte>)
    ensures 2 * |Even(HexBytes(v))| == (|v| + 3) / 4 * 4
  {
    var q, r := |v| / 4, |v| % 4;
    assert |HexBytes(v)| == 2 * q + (r + 1) / 2;
    assert (|v| + 3) / 4 == if r == 0 then q else q + 1;
  }

  /** Hex digits survive as their normal form. */
  lemma HexRoundTrip(v: seq<Byte>)
    ensures HexString(Even(HexBytes(v))) == NormalHex(v)
  {
    EvenLength(v);
    forall j | 0 <= j < |NormalHex(v)| ensures HexString(Even(HexBytes(v)))[j] == NormalHex(v)[j] {
      HexAt(v, j);
    }
  }

  /** A string cut at its first NUL is not affected by padding. */
  lemma {:induction false} PaddedText(c: seq<Byte>)
    ensures UpToNul(Even(c)) == UpToNul(c)
  {
    CutPadding(c);
  }

  lemma {:induction false} CutPadding(c: seq<Byte>)
    ensures UpToNul(c + [0]) == UpToNul(c)
  {
    if c != [] {
      assert (c + [0])[1..] == c[1..] + [0];
      CutPadding(c[1..]);
    }
  }

  lemma {:induction false} NoNul(c: seq<Byte>)
    ensures 0 !in c <==> UpToNul(c) == c
  {
  }

  lemma DecodeContents(d: Desc, z: Zip)
    requires d.kind != Invalid && (d.kind == Json ==> z.inflate(Even(z.deflate(d.value))) == Some(d.value))
    ensures Decoded(d.kind, Contents(d, z), z) == Some(Normal(d).value)
  {
    PaddedText(d.value);
    HexRoundTrip(d.value);
  }

  lemma DecodeEncoded(d: Desc, z: Zip, tail: seq<Word>)
    requires d.kind != Invalid && |Contents(d, z)| / 2 < MAX_WORDS
    requires d.kind == Json ==> z.inflate(Even(z.deflate(d.value))) == Some(d.value)
    ensures var rest := Parsed(tail, z);
      Parsed(Encoded(d, z) + tail, z) == if rest.Err? then rest else Ok([Normal(d)] + rest.value)
  {
    var c := Contents(d, z);
    var n := |c| / 2;
    var w := Encoded(d, z) + tail;
    assert w[0] == Code(d.kind) * MAX_WORDS + n;
    assert w[1..n + 1] == Packed(c) && w[n + 1..] == tail;
    UnpackPack(c);
    DecodeContents(d, z);
    OneQuotient(w[0], MAX_WORDS, Code(d.kind), n);
  }

  /** Whatever follows the image of a list is parsed as if it stood alone. */
  lemma {:induction false} ParseImage(ds: seq<Desc>, z: Zip, room: nat, tail: seq<Word>)
    requires Image(ds, z, room).Ok? && Inflates(ds, z)
    ensures var rest := Parsed(tail, z);
      Parsed(Image(ds, z, room).value + tail, z) == if rest.Err? then rest else Ok(Normals(ds) + rest.value)
  {
    hide Parsed, Encoded, Contents, Normal;
    if ds == [] {
      assert Image(ds, z, room).value + tail == tail;
      if Parsed(tail, z).Ok? {
        assert [] + Parsed(tail, z).value == Parsed(tail, z).value;
      }
    } else {
      var n := |Contents(ds[0], z)| / 2;
      var rest := Image(ds[1..], z, room - 4 - 4 * n).value;
      assert Inflates(ds[1..], z);
      ParseImage(ds[1..], z, room - 4 - 4 * n, tail);
      assert Image(ds, z, room).value + tail == Encoded(ds[0], z) + (rest + tail);
      DecodeEncoded(ds[0], z, rest + tail);
      if Parsed(tail, z).Ok? {
        assert [Normal(ds[0])] + (Normals(ds[1..]) + Parsed(tail, z).value) == Normals(ds) + Parsed(tail, z).value;
      }
    }
  }

  /** Does parsing stop at once, without an error and without a descriptor? */
  predicate Stops(w: seq<Word>) {
    w == [] || (w[0] < 0x1_0000 && (w[0] / MAX_WORDS == 0 || w[0] % MAX_WORDS > |w| - 1))
  }

  /** THE ROM ROUND TRIP. The words written parse to the same types in order with their values in
      normal form; with the rest of the buffer behind them they do so exactly if parsing stops
      there, because no end descriptor is written. */
  lemma RomRoundTrip(ds: seq<Desc>, z: Zip, room: nat, tail: seq<Word>)
    requires Image(ds, z, room).Ok? && Inflates(ds, z)
    ensures Parsed(Image(ds, z, room).value, z) == Ok(Normals(ds))
    ensures Parsed(Image(ds, z, room).value + tail, z) == Ok(Normals(ds)) <==> Stops(tail)
  {
    hide Image, Normals;
    var w := Image(ds, z, room).value;
    assert Parsed([], z) == Ok([]);
    ParseImage(ds, z, room, []);
    assert w + [] == w && Normals(ds) + [] == Normals(ds);
    ParseImage(ds, z, room, tail);
    if Parsed(tail, z).Ok? {
      assert Normals(ds) + Parsed(tail, z).value == Normals(ds) <==> |Parsed(tail, z).value| == 0;
    }
  }

  /** Text without NUL comes back unchanged. */
  lemma TextUnchanged(d: Desc)
    requires d.kind == Text
    ensures Normal(d) == d <==> 0 !in d.value
  {
    NoNul(d.value);
  }

  /* ---- the normal form ---- */

  lemma HexByteAt(c: seq<Byte>, i: nat)
    requires i < |c|
    ensures |HexBytes(HexString(c))| == |c| && HexBytes(HexString(c))[i] == c[i]
  {
    hide HexChar, UnhexChar;
    var v := HexString(c);
    assert (2 * i) / 2 == i && (2 * i + 1) / 2 == i;
    assert v[2 * i] == HexChar(c[i] / 16) && v[2 * i + 1] == HexChar(c[i]);
    HexBack(c[i] / 16);
    HexBack(c[i]);
    Nibbles(c[i]);
  }

  lemma HexNormal(c: seq<Byte>)
    requires |c| % 2 == 0
    ensures HexBytes(HexString(c)) == c && NormalHex(HexString(c)) == HexString(c)
  {
    hide HexChar, UnhexChar, Lower, HexBytes;
    var v := HexString(c);
    assert |HexBytes(v)| == |c| by { HexLength(v); }
    forall i | 0 <= i < |c| ensures HexBytes(v)[i] == c[i] {
      HexByteAt(c, i);
    }
    forall j | 0 <= j < |v| ensures Lower(v[j]) == v[j] {
      HexBack(if j % 2 == 0 then c[j / 2] / 16 else c[j / 2]);
    }
    assert |NormalHex(v)| == |v|;
  }

  lemma HexLength(v: seq<Byte>)
    ensures |HexBytes(v)| == (|v| + 1) / 2
  {
  }

  lemma Nibbles(b: Byte)
    ensures b / 16 % 16 * 16 + b % 16 == b
  {
  }

  lemma HexBack(n: nat)
    ensures UnhexChar(HexChar(n)) == n % 16 && Lower(HexChar(n)) == HexChar(n)
  {
  }

  /** Only Text and BigInt. */
  ghost predicate Plain(ds: seq<Desc>) {
    forall x | 0 <= x < |ds| :: ds[x].kind == Text || ds[x].kind == BigInt
  }

  /** The words that the parsed descriptors occupied. */
  function Used(w: seq<Word>, z: Zip): (n: nat)
    ensures n <= |w|
  {
    if Stops(w) || w[0] >= 0x1_0000 then 0 else w[0] % MAX_WORDS + 1 + Used(w[w[0] % MAX_WORDS + 1..], z)
  }

  lemma DecodedContents(k: Kind, c: seq<Byte>, z: Zip)
    requires |c| % 2 == 0 && (k == Text || k == BigInt)
    ensures var d := Desc(k, Decoded(k, c, z).value);
      |Contents(d, z)| <= |c| && Normal(d) == d
  {
    if k == Text {
      NoNul(UpToNul(c));
    } else {
      HexNormal(c);
    }
  }

  /** THE NORMAL FORM THEOREM. A parsed image of Text and BigInt descriptors is printed again in
      no more words than its descriptors occupied, and parses to the same list. */
  lemma {:induction false} Reprinted(w: seq<Word>, z: Zip, room: nat)
    requires Parsed(w, z).Ok? && Plain(Parsed(w, z).value) && room >= 4 * Used(w, z) + 4
    ensures var ds := Parsed(w, z).value;
      var again := Image(ds, z, room);
      again.Ok? && |again.value| <= Used(w, z) && Parsed(again.value, z) == Ok(ds)
    decreases |w|
  {
    hide Encoded, Contents, Normal, Parsed, Plain;
    StopsEmpty(w, z);
    if !Stops(w) {
      var ds := Parsed(w, z).value;
      var n := w[0] % MAX_WORDS;
      ParsedFirst(w, z);
      var m := |Contents(ds[0], z)| / 2;
      Reprinted(w[n + 1..], z, room - 4 - 4 * m);
      DecodeEncoded(ds[0], z, Image(ds[1..], z, room - 4 - 4 * m).value);
      assert [ds[0]] + ds[1..] == ds;
    }
  }

  lemma StopsEmpty(w: seq<Word>, z: Zip)
    ensures Stops(w) ==> Parsed(w, z) == Ok([])
    ensures Parsed([], z) == Ok([])
  {
  }

  /** The first descriptor of an image, and what printing it again takes. */
  lemma ParsedFirst(w: seq<Word>, z: Zip)
    requires Parsed(w, z).Ok? && Plain(Parsed(w, z).value) && !Stops(w)
    ensures var ds := Parsed(w, z).value;
      var n := w[0] % MAX_WORDS;
      && ds != [] && Normal(ds[0]) == ds[0] && (ds[0].kind == Text || ds[0].kind == BigInt) && |Contents(ds[0], z)| / 2 <= n
      && w[0] < 0x1_0000 && n + 1 <= |w| && Parsed(w[n + 1..], z) == Ok(ds[1..]) && Plain(ds[1..])
  {
    hide Contents, Normal, Unpacked;
    var ds := Parsed(w, z).value;
    var t, n := w[0] / MAX_WORDS, w[0] % MAX_WORDS;
    var c := Unpacked(w[1..n + 1]);
    assert ds[0] == Desc(KindOf(t), Decoded(KindOf(t), c, z).value);
    assert ds[1..] == Parsed(w[n + 1..], z).value;
    DecodedContents(KindOf(t), c, z);
  }

  /* ---- bytes ---- */

  function Join(a: Byte, b: Byte, c: Byte, d: Byte): Word {
    var n: nat := a;
    ((n * 256 + b) * 256 + c) * 256 + d
  }

  /** A word in network byte order, or in the order of a little-endian host. */
  function BytesOf(w: Word, swap: bool): (b: seq<Byte>)
    ensures |b| == 4
  {
    var h := w / 256;
    if swap then [h / 256 / 256, h / 256 % 256, h % 256, w % 256] else [w % 256, h % 256, h / 256 % 256, h / 256 / 256]
  }

  function WordOf(b: seq<Byte>, swap: bool): Word
    requires |b| == 4
  {
    if swap then Join(b[0], b[1], b[2], b[3]) else Join(b[3], b[2], b[1], b[0])
  }

  function Bytes(w: seq<Word>, swap: bool): (b: seq<Byte>)
    ensures |b| == 4 * |w|
  {
    if w == [] then [] else BytesOf(w[0], swap) + Bytes(w[1..], swap)
  }

  /** The whole words of a buffer. */
  function Words(b: seq<Byte>, swap: bool): (w: seq<Word>)
    ensures |w| == |b| / 4
  {
    if |b| < 4 then [] else [WordOf(b[..4], swap)] + Words(b[4..], swap)
  }

  lemma WordBytes(w: Word, swap: bool)
    ensures WordOf(BytesOf(w, swap), swap) == w
  {
  }

  /** Either byte order brings the same words back. */
  lemma {:induction false} BytesRoundTrip(w: seq<Word>, swap: bool)
    ensures Words(Bytes(w, swap), swap) == w
  {
    if w != [] {
      WordBytes(w[0], swap);
      assert Bytes(w, swap)[..4] == BytesOf(w[0], swap);
      assert Bytes(w, swap)[4..] == Bytes(w[1..], swap);
      BytesRoundTrip(w[1..], swap);
    }
  }

  /* ---- the parser and the printer ---- */

  class ROM {
    var infos: seq<Desc>

    constructor ()
      ensures infos == []
    {
      infos := [];
    }

    method PushBack(kind: Kind, value: seq<Byte>)
      modifies this
      ensures infos == old(infos) + [Desc(kind, value)]
    {
      infos := infos + [Desc(kind, value)];
    }

    /** The contents of one descriptor, of even length. */
    method Build(d: Desc, z: Zip) returns (contents: seq<Byte>)
      requires d.kind != Invalid
      ensures contents == Contents(d, z)
    {
      match d.kind {
        case Text => contents := d.value;
        case BigInt => contents := FromHex(d.value);
        case Json => contents := z.deflate(d.value);
      }
      if |contents| % 2 != 0 {
        contents := contents + [0];
      }
    }

    /** Sets the digits of a big integer, half a byte each, in zeroed bytes. */
    method FromHex(v: seq<Byte>) returns (b: seq<Byte>)
      ensures b == HexBytes(v)
    {
      b := Nothing(|v| / 2);
      if |v| % 2 != 0 {
        b := Nothing(|b| + 1);
      }
      var i := 0;
      while i < |v|
        invariant 0 <= i <= |v| && |b| == (|v| + 1) / 2
        invariant forall x | 0 <= x < |b| :: b[x] == HexSoFar(v, i, x)
      {
        var val := UnhexChar(v[i]);
        if i % 2 == 0 {
          val := val * 16;
        }
        b := b[i / 2 := b[i / 2] + val];
        i := i + 1;
      }
    }

    /** Writes the image into the buffer; its length in bytes, or why there is none. */
    method Prepare(buf: array<Byte>, z: Zip) returns (r: Result<nat>)
      modifies buf
      ensures var im := Image(infos, z, buf.Length);
        if im.Ok? then r == Ok(4 * |im.value|) && 4 * |im.value| + 4 <= buf.Length
          && buf[..] == Bytes(im.value, true) + old(buf[..])[4 * |im.value|..]
        else r == Err(im.error)
    {
      hide Bytes, Packed, Contents, Encoded, Image, Printing;
      var p: nat := 0;
      var x := 0;
      ghost var done: seq<Word> := [];
      ghost var before := buf[..];
      ghost var all := Image(infos, z, buf.Length);
      PrintStart(infos, z, before);
      while x < |infos|
        invariant 0 <= x <= |infos| && p <= buf.Length == |before|
        invariant Printing(infos[x..], z, before, buf[..], done, p, all)
      {
        PrintNext(infos, x, z, before, buf[..], done, p, all);
        var q := Add(buf, p, infos[x], z, done, before[p..]);
        if q.Err? {
          return q;
        }
        done := done + Encoded(infos[x], z);
        p := q.value;
        x := x + 1;
      }
      PrintEnd(infos[x..], z, before, buf[..], done, p, all);
      if buf.Length - p < 4 {
        return Err(NoEnd);
      }
      return Ok(p);
    }

    /** The form for an array of words on a little-endian host: prepared as bytes, then every word
        of the buffer is turned round, also those behind the image. */
    method PrepareWords(buf: array<Word>, z: Zip) returns (r: Result<nat>)
      modifies buf
      ensures var im := Image(infos, z, 4 * buf.Length);
        if im.Ok? then r == Ok(|im.value|) && |im.value| < buf.Length
          && buf[..] == im.value + Turned(old(buf[..])[|im.value|..])
        else r == Err(im.error)
    {
      hide Image, Bytes, BytesOf, WordOf;
      ghost var before := buf[..];
      var bytes := new Byte[4 * buf.Length];
      Load(buf, bytes);
      var p := Prepare(bytes, z);
      if p.Err? {
        return p;
      }
      ghost var im := Image(infos, z, 4 * buf.Length).value;
      HostTail(before, |im|);
      ghost var words := im + Turned(before[|im|..]);
      BytesConcat(im, Turned(before[|im|..]), true);
      Store(bytes, buf, words);
      return Ok(p.value / 4);
    }

    method Store(bytes: array<Byte>, buf: array<Word>, ghost words: seq<Word>)
      requires bytes[..] == Bytes(words, true) && |words| == buf.Length
      modifies buf
      ensures buf[..] == words
    {
      hide Bytes, WordOf;
      var i := 0;
      while i < buf.Length
        invariant 0 <= i <= buf.Length && buf[..i] == words[..i]
      {
        WordAt(words, i, true);
        buf[i] := WordOf(bytes[4 * i..4 * i + 4], true);
        i := i + 1;
      }
    }

    /** The memory of a word array, byte by byte. */
    method Load(buf: array<Word>, bytes: array<Byte>)
      requires bytes.Length == 4 * buf.Length
      modifies bytes
      ensures bytes[..] == Bytes(buf[..], false)
    {
      hide Bytes, BytesOf;
      assert Bytes(buf[..0], false) == [] by { BytesNone(); }
      var i := 0;
      while i < buf.Length
        invariant 0 <= i <= buf.Length && bytes[..4 * i] == Bytes(buf[..i], false)
      {
        var b := BytesOf(buf[i], false);
        BytesConcat(buf[..i], [buf[i]], false);
        BytesOne(buf[i], false);
        assert buf[..i + 1] == buf[..i] + [buf[i]];
        bytes[4 * i], bytes[4 * i + 1], bytes[4 * i + 2], bytes[4 * i + 3] := b[0], b[1], b[2], b[3];
        assert bytes[..4 * (i + 1)] == bytes[..4 * i] + b;
        i := i + 1;
      }
      assert buf[..i] == buf[..];
    }

    /** One turn of the printer's loop, behind the words done. */
    method Add(buf: array<Byte>, p: nat, d: Desc, z: Zip, ghost done: seq<Word>, ghost r: seq<Byte>) returns (q: Result<nat>)
      requires buf[..] == Bytes(done, true) + r && p == 4 * |done|
      modifies buf
      ensures var n := |Contents(d, z)| / 2;
        if d.kind == Invalid then q == Err(InvalidType)
        else if n >= MAX_WORDS then q == Err(TooLarge)
        else if 4 + 4 * n > |r| then q == Err(NoSpace)
        else q == Ok(p + 4 + 4 * n) && buf[..] == Bytes(done + Encoded(d, z), true) + r[4 + 4 * n..]
    {
      hide Bytes, Packed, Contents, Encoded;
      if d.kind == Invalid {
        return Err(InvalidType);
      }
      var contents := Build(d, z);
      if |contents| / 2 >= MAX_WORDS {
        return Err(TooLarge);
      }
      if 4 + |contents| * 2 > buf.Length - p {
        return Err(NoSpace);
      }
      EncodedWords(d, z);
      Put(buf, p, Code(d.kind) * MAX_WORDS + |contents| / 2, contents, done, r);
      return Ok(p + 4 + |contents| * 2);
    }

    /** Header and contents of one descriptor at byte p, behind the words done. */
    method Put(buf: array<Byte>, p: nat, header: Word, contents: seq<Byte>, ghost done: seq<Word>, ghost r: seq<Byte>)
      requires |contents| % 2 == 0 && 4 + 2 * |contents| <= |r| && header < 0x1_0000
      requires buf[..] == Bytes(done, true) + r && p == 4 * |done|
      modifies buf
      ensures buf[..] == Bytes(done + ([header] + Packed(contents)), true) + r[4 + 2 * |contents|..]
    {
      hide Bytes, Packed;
      ghost var words := done + [header];
      HeaderPair(header);
      PutWord(buf, p, header / 256, header % 256, done, r);
      PackNone(contents);
      var i := 0;
      while i < |contents|
        invariant 0 <= i <= |contents| && i % 2 == 0 && words == done + ([header] + Packed(contents[..i]))
        invariant buf[..] == Bytes(words, true) + r[4 + 2 * i..]
      {
        PutWord(buf, p + 4 + 2 * i, contents[i], contents[i + 1], words, r[4 + 2 * i..]);
        PackOne(contents, i);
        words := words + [Pair(contents[i], contents[i + 1])];
        i := i + 2;
      }
      assert contents[..i] == contents;
    }

    /** One word behind the words done: two unused bytes and two of contents. */
    method PutWord(buf: array<Byte>, x: nat, hi: Byte, lo: Byte, ghost done: seq<Word>, ghost r: seq<Byte>)
      requires buf[..] == Bytes(done, true) + r && x == 4 * |done| && |r| >= 4
      modifies buf
      ensures buf[..] == Bytes(done + [Pair(hi, lo)], true) + r[4..]
    {
      hide Bytes;
      PairBytes(hi, lo);
      BytesConcat(done, [Pair(hi, lo)], true);
      buf[x], buf[x + 1], buf[x + 2], buf[x + 3] := 0, 0, hi, lo;
      assert buf[..] == Bytes(done, true) + [0, 0, hi, lo] + r[4..];
    }

    /** The bytes in use of the words from byte p on. */
    method Unpack(buf: seq<Byte>, p: nat, n: nat, swap: bool) returns (contents: seq<Byte>)
      requires p + 4 * n <= |buf|
      ensures contents == Unpacked(Words(buf[p..p + 4 * n], swap))
    {
      hide Words, Unpacked;
      contents := [];
      UnpackNone(buf, p, swap);
      var i := 0;
      while i < n
        invariant 0 <= i <= n && contents == Unpacked(Words(buf[p..p + 4 * i], swap))
      {
        var x := p + 4 * i;
        var pair := if swap then [buf[x + 2], buf[x + 3]] else [buf[x + 1], buf[x]];
        UnpackOne(buf, p, i, swap);
        contents := contents + pair;
        i := i + 1;
      }
    }

    method ToHex(contents: seq<Byte>) returns (v: seq<Byte>)
      ensures v == HexString(contents)
    {
      v := [];
      var i := 0;
      while i < |contents|
        invariant 0 <= i <= |contents| && v == HexString(contents[..i])
      {
        v := v + [HexChar(contents[i] / 16), HexChar(contents[i])];
        i := i + 1;
      }
      assert contents[..i] == contents;
    }

    /** One turn of the parser's loop, at byte p. */
    method Next(buf: seq<Byte>, p: nat, swap: bool, z: Zip) returns (o: One)
      requires p + 4 <= |buf|
      ensures var all := Parsed(Words(buf[p..], swap), z);
        && (o.Done? ==> all == Ok([])) && (o.Failed? ==> all == Err(o.error))
        && (o.Found? ==> p < o.next <= |buf| && all == Onto([o.d], Parsed(Words(buf[o.next..], swap), z)))
    {
      hide WordOf, Unpacked;
      var val := WordOf(buf[p..p + 4], swap);
      FirstWord(buf, p, swap);
      if val >= 0x1_0000 {
        return Failed(HighWord);
      }
      var t, n := val / MAX_WORDS, val % MAX_WORDS;
      var x := p + 4;
      if t == 0 || 4 * n > |buf| - x {
        return Done;
      }
      var contents := Unpack(buf, x, n, swap);
      FirstDesc(buf, p, swap, z);
      match KindOf(t) {
        case Invalid =>
          return Done;
        case Text =>
          return Found(Desc(Text, UpToNul(contents)), x + 4 * n);
        case BigInt =>
          var hex := ToHex(contents);
          return Found(Desc(BigInt, hex), x + 4 * n);
        case Json =>
          var json := z.inflate(contents);
          if json.None? {
            return Failed(BadZip);
          }
          return Found(Desc(Json, json.value), x + 4 * n);
      }
    }

    /** Replaces the descriptors by those of the image, unless it is refused. */
    method Parse(buf: seq<Byte>, swap: bool, z: Zip) returns (r: Result<()>)
      modifies this
      ensures var p := Parsed(Words(buf, swap), z);
        if p.Ok? then r == Ok(()) && infos == p.value else r == Err(p.error) && infos == old(infos)
    {
      hide Parsed, Words;
      var temp := [];
      var p := 0;
      ghost var all := Parsed(Words(buf, swap), z);
      assert buf[0..] == buf;
      OntoNone(all);
      while |buf| - p >= 4
        invariant 0 <= p <= |buf| && infos == old(infos)
        invariant all == Onto(temp, Parsed(Words(buf[p..], swap), z))
        decreases |buf| - p
      {
        var o := Next(buf, p, swap, z);
        match o {
          case Done =>
            infos := temp;
            return Ok(());
          case Failed(error) =>
            return Err(error);
          case Found(d, q) =>
            OntoTwice(temp, [d], Parsed(Words(buf[q..], swap), z));
            temp := temp + [d];
            p := q;
        }
      }
      NoWords(buf[p..], swap, z);
      infos := temp;
      return Ok(());
    }
  }

  function Nothing(n: nat): seq<Byte> {
    seq(n, _ => 0)
  }

  /** Byte x of a big integer when only the first i digits have been set. */
  function HexSoFar(v: seq<Byte>, i: nat, x: nat): nat
    requires i <= |v|
  {
    Nibble(v[..i], 2 * x) * 16 + Nibble(v[..i], 2 * x + 1)
  }

  /** The words written so far with the image of the rest. */
  function Behind(front: seq<Word>, rest: Result<seq<Word>>): Result<seq<Word>> {
    if rest.Err? then rest else Ok(front + rest.value)
  }

  /** The printer has written the words done, up to byte p, and what is left leads to the result. */
  ghost predicate Printing(ds: seq<Desc>, z: Zip, before: seq<Byte>, buf: seq<Byte>, done: seq<Word>, p: nat, all: Result<seq<Word>>) {
    && p == 4 * |done| <= |before| && buf == Bytes(done, true) + before[p..]
    && all == Behind(done, Image(ds, z, |before| - p))
  }

  lemma PrintStart(ds: seq<Desc>, z: Zip, before: seq<Byte>)
    ensures ds[0..] == ds && Printing(ds, z, before, before, [], 0, Image(ds, z, |before|))
  {
    hide Image;
    assert Bytes([], true) + before[0..] == before;
    BehindNone(Image(ds, z, |before|));
  }

  lemma PrintNext(ds: seq<Desc>, x: nat, z: Zip, before: seq<Byte>, buf: seq<Byte>, done: seq<Word>, p: nat, all: Result<seq<Word>>)
    requires x < |ds| && Printing(ds[x..], z, before, buf, done, p, all)
    ensures p == 4 * |done| <= |before| && buf == Bytes(done, true) + before[p..]
    ensures var n := |Contents(ds[x], z)| / 2;
      if ds[x].kind == Invalid then all == Err(InvalidType)
      else if n >= MAX_WORDS then all == Err(TooLarge)
      else if 4 + 4 * n > |before| - p then all == Err(NoSpace)
      else
        var w := done + Encoded(ds[x], z);
        Printing(ds[x + 1..], z, before, Bytes(w, true) + before[p..][4 + 4 * n..], w, p + 4 + 4 * n, all)
  {
    hide Image, Behind, Bytes, Contents, Encoded, Printing;
    PrintFacts(ds[x..], z, before, buf, done, p, all);
    ImageNext(ds, x, z, |before| - p, done);
    var n := |Contents(ds[x], z)| / 2;
    if ds[x].kind != Invalid && n < MAX_WORDS && 4 + 4 * n <= |before| - p {
      PrintMore(ds[x + 1..], z, before, done, Encoded(ds[x], z), p, all);
    }
  }

  lemma PrintFacts(ds: seq<Desc>, z: Zip, before: seq<Byte>, buf: seq<Byte>, done: seq<Word>, p: nat, all: Result<seq<Word>>)
    requires Printing(ds, z, before, buf, done, p, all)
    ensures p == 4 * |done| <= |before| && buf == Bytes(done, true) + before[p..]
    ensures all == Behind(done, Image(ds, z, |before| - p))
  {
    hide Image, Behind, Bytes;
  }

  lemma PrintMore(ds: seq<Desc>, z: Zip, before: seq<Byte>, done: seq<Word>, w: seq<Word>, p: nat, all: Result<seq<Word>>)
    requires p == 4 * |done| && p + 4 * |w| <= |before| && all == Behind(done + w, Image(ds, z, |before| - p - 4 * |w|))
    ensures Printing(ds, z, before, Bytes(done + w, true) + before[p..][4 * |w|..], done + w, p + 4 * |w|, all)
  {
    hide Image, Behind, Bytes;
    assert before[p..][4 * |w|..] == before[p + 4 * |w|..];
  }

  lemma PrintEnd(ds: seq<Desc>, z: Zip, before: seq<Byte>, buf: seq<Byte>, done: seq<Word>, p: nat, all: Result<seq<Word>>)
    requires ds == [] && Printing(ds, z, before, buf, done, p, all)
    ensures p == 4 * |done| <= |before| && buf == Bytes(done, true) + before[p..]
    ensures all == if |before| - p < 4 then Err(NoEnd) else Ok(done)
  {
    ImageEnd(ds, z, |before| - p, done);
  }

  /** What the next descriptor adds behind the words done. */
  lemma ImageNext(ds: seq<Desc>, x: nat, z: Zip, room: nat, done: seq<Word>)
    requires x < |ds|
    ensures var n := |Contents(ds[x], z)| / 2;
      var all := Behind(done, Image(ds[x..], z, room));
      if ds[x].kind == Invalid then all == Err(InvalidType)
      else if n >= MAX_WORDS then all == Err(TooLarge)
      else if 4 + 4 * n > room then all == Err(NoSpace)
      else all == Behind(done + Encoded(ds[x], z), Image(ds[x + 1..], z, room - 4 - 4 * n))
  {
    hide Contents, Encoded;
    assert ds[x..][0] == ds[x] && ds[x..][1..] == ds[x + 1..];
    var n := |Contents(ds[x], z)| / 2;
    if ds[x].kind != Invalid && n < MAX_WORDS && 4 + 4 * n <= room {
      BehindTwice(done, Encoded(ds[x], z), Image(ds[x + 1..], z, room - 4 - 4 * n));
    }
  }

  lemma ImageEnd(ds: seq<Desc>, z: Zip, room: nat, done: seq<Word>)
    requires ds == []
    ensures Behind(done, Image(ds, z, room)) == if room < 4 then Err(NoEnd) else Ok(done)
  {
    assert done + [] == done;
  }

  lemma BehindTwice(a: seq<Word>, b: seq<Word>, rest: Result<seq<Word>>)
    ensures Behind(a, Behind(b, rest)) == Behind(a + b, rest)
  {
    if rest.Ok? {
      assert a + (b + rest.value) == a + b + rest.value;
    }
  }

  lemma {:induction false} BytesConcat(a: seq<Word>, b: seq<Word>, swap: bool)
    ensures Bytes(a + b, swap) == Bytes(a, swap) + Bytes(b, swap)
  {
    if a == [] {
      assert a + b == b;
    } else {
      assert (a + b)[1..] == a[1..] + b;
      BytesConcat(a[1..], b, swap);
    }
  }

  function TurnedWord(w: Word): Word {
    WordOf(BytesOf(w, false), true)
  }

  function Turned(w: seq<Word>): (t: seq<Word>)
    ensures |t| == |w| && forall i | 0 <= i < |w| :: t[i] == TurnedWord(w[i])
  {
    if w == [] then [] else [TurnedWord(w[0])] + Turned(w[1..])
  }

  lemma BytesNone()
    ensures forall swap :: Bytes([], swap) == []
  {
  }

  lemma BytesOne(w: Word, swap: bool)
    ensures Bytes([w], swap) == BytesOf(w, swap)
  {
    assert [w][1..] == [] && Bytes([], swap) == [];
  }

  lemma TurnedBytes(w: Word)
    ensures BytesOf(TurnedWord(w), true) == BytesOf(w, false)
  {
    var b := BytesOf(w, false);
    BytesJoin(b[0], b[1], b[2], b[3]);
  }

  lemma BytesJoin(a: Byte, b: Byte, c: Byte, d: Byte)
    ensures BytesOf(Join(a, b, c, d), true) == [a, b, c, d]
  {
    var n: nat := a;
    var w := Join(a, b, c, d);
    OneQuotient(w, 256, (n * 256 + b) * 256 + c, d);
    OneQuotient((n * 256 + b) * 256 + c, 256, n * 256 + b, c);
    OneQuotient(n * 256 + b, 256, n, b);
  }

  lemma {:induction false} HostBytes(w: seq<Word>)
    ensures Bytes(w, false) == Bytes(Turned(w), true)
  {
    if w != [] {
      TurnedBytes(w[0]);
      HostBytes(w[1..]);
      assert Turned(w)[1..] == Turned(w[1..]);
    }
  }

  lemma HostTail(w: seq<Word>, n: nat)
    requires n <= |w|
    ensures Bytes(w, false)[4 * n..] == Bytes(Turned(w[n..]), true)
  {
    assert w == w[..n] + w[n..];
    BytesConcat(w[..n], w[n..], false);
    HostBytes(w[n..]);
  }

  lemma WordAt(w: seq<Word>, i: nat, swap: bool)
    requires i < |w|
    ensures |Bytes(w, swap)| == 4 * |w| && WordOf(Bytes(w, swap)[4 * i..4 * i + 4], swap) == w[i]
  {
    hide Bytes, BytesOf, WordOf;
    assert w == w[..i] + [w[i]] + w[i + 1..];
    BytesConcat(w[..i] + [w[i]], w[i + 1..], swap);
    BytesConcat(w[..i], [w[i]], swap);
    BytesOne(w[i], swap);
    WordBytes(w[i], swap);
    assert Bytes(w, swap)[4 * i..4 * i + 4] == BytesOf(w[i], swap);
  }

  /** Both forms hold the same image: the word form in host order for swap=false, the byte form in
      network order for swap=true. */
  lemma SameImage(ds: seq<Desc>, z: Zip, room: nat)
    requires Image(ds, z, room).Ok?
    ensures var im := Image(ds, z, room).value;
      Parsed(Words(Bytes(im, false), false), z) == Parsed(Words(Bytes(im, true), true), z) == Parsed(im, z)
  {
    BytesRoundTrip(Image(ds, z, room).value, false);
    BytesRoundTrip(Image(ds, z, room).value, true);
  }

  lemma BehindNone(rest: Result<seq<Word>>)
    ensures Behind([], rest) == rest
  {
    if rest.Ok? {
      assert [] + rest.value == rest.value;
    }
  }

  lemma EncodedWords(d: Desc, z: Zip)
    requires |Contents(d, z)| / 2 < MAX_WORDS
    ensures Encoded(d, z) == [Code(d.kind) * MAX_WORDS + |Contents(d, z)| / 2] + Packed(Contents(d, z))
  {
  }

  lemma HeaderPair(header: Word)
    requires header < 0x1_0000
    ensures Pair(header / 256, header % 256) == header
  {
  }

  lemma PairBytes(hi: Byte, lo: Byte)
    ensures Bytes([Pair(hi, lo)], true) == [0, 0, hi, lo]
  {
    Halves(hi, lo);
    assert Bytes([], true) == [];
  }

  lemma PackNone(c: seq<Byte>)
    ensures Packed(c[..0]) == []
  {
  }

  lemma PackOne(c: seq<Byte>, i: nat)
    requires i % 2 == 0 && i + 2 <= |c|
    ensures Packed(c[..i + 2]) == Packed(c[..i]) + [Pair(c[i], c[i + 1])]
  {
  }

  /** What one turn of the parser's loop finds: the end, an error, or a descriptor up to byte next. */
  datatype One = Done | Failed(error: Error) | Found(d: Desc, next: nat)

  lemma NoWords(b: seq<Byte>, swap: bool, z: Zip)
    requires |b| < 4
    ensures Parsed(Words(b, swap), z) == Ok([])
  {
  }

  lemma OntoNone(rest: Result<seq<Desc>>)
    ensures Onto([], rest) == rest
  {
    if rest.Ok? {
      assert [] + rest.value == rest.value;
    }
  }

  /** Parsing from a descriptor that is all there. */
  lemma FirstDesc(buf: seq<Byte>, p: nat, swap: bool, z: Zip)
    requires p + 4 <= |buf|
    requires var val := WordOf(buf[p..p + 4], swap);
      val < 0x1_0000 && val / MAX_WORDS > 0 && 4 * (val % MAX_WORDS) <= |buf| - p - 4
    ensures var val := WordOf(buf[p..p + 4], swap);
      var n := val % MAX_WORDS;
      var x := p + 4;
      var v := Decoded(KindOf(val / MAX_WORDS), Unpacked(Words(buf[x..x + 4 * n], swap)), z);
      Parsed(Words(buf[p..], swap), z) ==
        if v.None? then Err(BadZip) else Onto([Desc(KindOf(val / MAX_WORDS), v.value)], Parsed(Words(buf[x + 4 * n..], swap), z))
  {
    hide WordOf, Unpacked, Decoded, Words;
    var val := WordOf(buf[p..p + 4], swap);
    var n := val % MAX_WORDS;
    FirstWord(buf, p, swap);
    WordsBetween(buf, p + 4, n, swap);
    var w := Words(buf[p..], swap);
    assert w == [val] + Words(buf[p + 4..p + 4 + 4 * n], swap) + Words(buf[p + 4 + 4 * n..], swap);
    assert w[1..n + 1] == Words(buf[p + 4..p + 4 + 4 * n], swap);
    assert w[n + 1..] == Words(buf[p + 4 + 4 * n..], swap);
  }

  /** A list with what the rest of the image yields. */
  function Onto(front: seq<Desc>, rest: Result<seq<Desc>>): Result<seq<Desc>> {
    if rest.Err? then rest else Ok(front + rest.value)
  }

  lemma OntoTwice(a: seq<Desc>, b: seq<Desc>, rest: Result<seq<Desc>>)
    ensures Onto(a, Onto(b, rest)) == Onto(a + b, rest)
  {
    if rest.Ok? {
      assert a + (b + rest.value) == a + b + rest.value;
    }
  }

  lemma FirstWord(buf: seq<Byte>, p: nat, swap: bool)
    requires p + 4 <= |buf|
    ensures Words(buf[p..], swap) == [WordOf(buf[p..p + 4], swap)] + Words(buf[p + 4..], swap)
  {
    assert buf[p..][..4] == buf[p..p + 4] && buf[p..][4..] == buf[p + 4..];
  }

  lemma {:induction false} WordsConcat(a: seq<Byte>, b: seq<Byte>, swap: bool)
    requires |a| % 4 == 0
    ensures Words(a + b, swap) == Words(a, swap) + Words(b, swap)
  {
    if a == [] {
      assert a + b == b;
    } else {
      assert (a + b)[..4] == a[..4] && (a + b)[4..] == a[4..] + b;
      WordsConcat(a[4..], b, swap);
    }
  }

  lemma WordsBetween(buf: seq<Byte>, p: nat, n: nat, swap: bool)
    requires p + 4 * n <= |buf|
    ensures Words(buf[p..], swap) == Words(buf[p..p + 4 * n], swap) + Words(buf[p + 4 * n..], swap)
  {
    assert buf[p..] == buf[p..p + 4 * n] + buf[p + 4 * n..];
    WordsConcat(buf[p..p + 4 * n], buf[p + 4 * n..], swap);
  }

  lemma UnpackNone(buf: seq<Byte>, p: nat, swap: bool)
    requires p <= |buf|
    ensures Unpacked(Words(buf[p..p], swap)) == []
  {
  }

  lemma UnpackOne(buf: seq<Byte>, p: nat, i: nat, swap: bool)
    requires p + 4 * i + 4 <= |buf|
    ensures var x := p + 4 * i;
      var pair := if swap then [buf[x + 2], buf[x + 3]] else [buf[x + 1], buf[x]];
      Unpacked(Words(buf[p..x + 4], swap)) == Unpacked(Words(buf[p..x], swap)) + pair
  {
    var x := p + 4 * i;
    assert buf[p..x + 4] == buf[p..x] + buf[x..x + 4];
    WordsConcat(buf[p..x], buf[x..x + 4], swap);
    assert Words(buf[x..x + 4], swap) == [WordOf(buf[x..x + 4], swap)];
    LowBytes(buf[x..x + 4], swap);
  }

  lemma LowBytes(b: seq<Byte>, swap: bool)
    requires |b| == 4
    ensures var w := WordOf(b, swap);
      w / 256 % 256 == (if swap then b[2] else b[1]) && w % 256 == (if swap then b[3] else b[0])
  {
    JoinLow(b[0], b[1], b[2], b[3]);
    JoinLow(b[3], b[2], b[1], b[0]);
  }

  lemma JoinLow(a: Byte, b: Byte, c: Byte, d: Byte)
    ensures Join(a, b, c, d) / 256 % 256 == c && Join(a, b, c, d) % 256 == d
  {
    var n: nat := a;
    OneQuotient(Join(a, b, c, d), 256, (n * 256 + b) * 256 + c, d);
    OneQuotient((n * 256 + b) * 256 + c, 256, n * 256 + b, c);
  }
}
