/** What the image of a list of descriptors looks like, word by word and byte by byte. */
module RomLayout {
  import opened Numbers
  import opened Rom

  /** The bytes stored for a descriptor, before they are padded to an even number. */
  function Stored(d: Desc, z: Zip): seq<Byte> {
    match d.kind
    case Invalid => []
    case Text => d.value
    case BigInt => HexBytes(d.value)
    case Json => z.deflate(d.value)
  }

  /** The high two bits of a header. */
  predicate Typed(k: Kind, header: Word) {
    match k
    case Invalid => header / 0x4000 == 0
    case Text => header / 0x4000 == 1
    case BigInt => header / 0x4000 == 2
    case Json => header / 0x4000 == 3
  }

  function ByteAt(c: seq<Byte>, j: nat): nat {
    if j < |c| then c[j] else 0
  }

  /** Entry d stands at word p: its type and its length in words, then its bytes, two a word, the
      first one high, and a zero behind an odd last one. */
  ghost predicate EntryAt(w: seq<Word>, p: nat, d: Desc, z: Zip) {
    var c := Stored(d, z);
    var n := (|c| + 1) / 2;
    && p + n < |w| && Typed(d.kind, w[p]) && w[p] % 0x4000 == n
    && forall i | 0 <= i < n :: w[p + 1 + i] == ByteAt(c, 2 * i) * 256 + ByteAt(c, 2 * i + 1)
  }

  /** Where entry x begins: every entry before it takes a header and its words. */
  function Place(ds: seq<Desc>, z: Zip, x: nat): nat
    requires x <= |ds|
  {
    if x == 0 then 0 else Place(ds, z, x - 1) + 1 + (|Stored(ds[x - 1], z)| + 1) / 2
  }

  lemma ContentsStored(d: Desc, z: Zip)
    ensures var c, e := Stored(d, z), Contents(d, z);
      |e| / 2 == (|c| + 1) / 2 && c <= e && (|e| == |c| || (|e| == |c| + 1 && e[|c|] == 0))
  {
    hide HexBytes;
  }

  lemma EncodedAt(d: Desc, z: Zip, rest: seq<Word>)
    requires |Contents(d, z)| / 2 < MAX_WORDS
    ensures EntryAt(Encoded(d, z) + rest, 0, d, z)
  {
    hide Contents, Stored;
    ContentsStored(d, z);
    var c, e := Stored(d, z), Contents(d, z);
    var w := Encoded(d, z);
    OneQuotient(w[0], MAX_WORDS, Code(d.kind), |e| / 2);
    forall i | 0 <= i < |e| / 2 ensures (w + rest)[1 + i] == ByteAt(c, 2 * i) * 256 + ByteAt(c, 2 * i + 1) {
      assert (w + rest)[1 + i] == w[1 + i] == Packed(e)[i];
    }
  }

  /** THE LAYOUT THEOREM. Every descriptor stands at its place in the image, and the image ends
      behind the last one. */
  lemma {:induction false} ImageLayout(ds: seq<Desc>, z: Zip, room: nat, x: nat)
    requires Image(ds, z, room).Ok? && x <= |ds|
    ensures var w := Image(ds, z, room).value;
      if x == |ds| then Place(ds, z, x) == |w| else EntryAt(w, Place(ds, z, x), ds[x], z)
    decreases x
  {
    hide Contents, Stored, EntryAt, Encoded;
    if ds != [] {
      var w := Image(ds, z, room).value;
      var n := |Contents(ds[0], z)| / 2;
      var rest := Image(ds[1..], z, room - 4 - 4 * n).value;
      ContentsStored(ds[0], z);
      if x == 0 {
        EncodedAt(ds[0], z, rest);
      } else {
        ImageLayout(ds[1..], z, room - 4 - 4 * n, x - 1);
        PlaceShift(ds, z, x);
        if x < |ds| {
          EntryShift(Encoded(ds[0], z), rest, Place(ds[1..], z, x - 1), ds[x], z);
        }
      }
    }
  }

  lemma {:induction false} PlaceShift(ds: seq<Desc>, z: Zip, x: nat)
    requires 0 < x <= |ds|
    ensures Place(ds, z, x) == 1 + (|Stored(ds[0], z)| + 1) / 2 + Place(ds[1..], z, x - 1)
  {
    hide Stored;
    if x > 1 {
      PlaceShift(ds, z, x - 1);
    }
  }

  lemma EntryShift(a: seq<Word>, w: seq<Word>, p: nat, d: Desc, z: Zip)
    requires EntryAt(w, p, d, z)
    ensures EntryAt(a + w, |a| + p, d, z)
  {
    hide Stored;
    var n := (|Stored(d, z)| + 1) / 2;
    assert (a + w)[|a| + p..] == w[p..];
    forall i | 0 <= i < n ensures (a + w)[|a| + p + 1 + i] == ByteAt(Stored(d, z), 2 * i) * 256 + ByteAt(Stored(d, z), 2 * i + 1) {
      assert (a + w)[|a| + p + 1 + i] == w[p + 1 + i];
    }
  }

  function HighFirst(a: nat, b: nat, c: nat, d: nat): nat {
    a * 0x100_0000 + b * 0x1_0000 + c * 256 + d
  }

  /** In the form for the wire a word has its highest byte first. */
  lemma {:induction false} HighBytesFirst(w: seq<Word>, i: nat)
    requires i < |w|
    ensures var b := Bytes(w, true);
      HighFirst(b[4 * i], b[4 * i + 1], b[4 * i + 2], b[4 * i + 3]) == w[i]
    ensures w[i] < 0x1_0000 ==> Bytes(w, true)[4 * i] == 0 && Bytes(w, true)[4 * i + 1] == 0
  {
    if i == 0 {
      WordParts(w[0]);
    } else {
      HighBytesFirst(w[1..], i - 1);
      assert Bytes(w, true)[4..] == Bytes(w[1..], true);
    }
  }

  lemma WordParts(w: Word)
    ensures var b := BytesOf(w, true);
      HighFirst(b[0], b[1], b[2], b[3]) == w && (w < 0x1_0000 ==> b[0] == 0 && b[1] == 0)
  {
    var h := w / 256;
    Divides(w, 256);
    Divides(h, 256);
    Divides(h / 256, 256);
  }

  /** Two digits make a byte, the first one high. */
  lemma DigitsHigh(v: seq<Byte>, i: nat, j: nat)
    requires i < |HexBytes(v)| && j < |v| && (j == 2 * i || j == 2 * i + 1)
    ensures var digit := if j == 2 * i then HexBytes(v)[i] / 16 else HexBytes(v)[i] % 16;
      && ('0' as int <= v[j] <= '9' as int ==> digit == v[j] - '0' as int)
      && ('a' as int <= v[j] <= 'f' as int ==> digit == v[j] - 'a' as int + 10)
      && ('A' as int <= v[j] <= 'F' as int ==> digit == v[j] - 'A' as int + 10)
  {
    OneQuotient(HexBytes(v)[i], 16, Nibble(v, 2 * i), Nibble(v, 2 * i + 1));
  }
}
