/**
 The SD blob: its fixed-slot layout and header, the full write of `sd_pack`, the
 partial write of `sd_update`, and what the loader's SD boot reads back.

 A partial update is proved to boot exactly like a full repack if and only if
 every slot it leaves alone already holds its file, whatever stale sectors lie
 behind the data in the slots.
 */
module SdBlob {
  import Bits
  import opened U32
  import opened Wrappers

  type Sector = s: seq<bv8> | |s| == 512 witness seq(512, _ => 0)

  const SECTOR := 512
  const MAGIC: seq<bv8> := [0x4E, 0x45, 0x4F, 0x4C, 0x4E, 0x58, 0x00, 0x00]  // "NEOLNX\0\0"
  const LAYOUT_VERSION := 1
  const HDR_LBA := 0
  const IMG_LBA := 1
  const IMG_MAX_SEC := 4000
  const DTB_LBA := IMG_LBA + IMG_MAX_SEC
  const DTB_MAX_SEC := 8
  const IRD_LBA := DTB_LBA + DTB_MAX_SEC
  const IRD_MAX_SEC := 4000
  const END_LBA := IRD_LBA + IRD_MAX_SEC

  datatype Error = Overflow | BadMagic | LayoutMismatch | WriteFailed
  datatype Result<T> = Ok(value: T) | Err(error: Error)

  // ---------------------------------------------------------------------
  // Sectors and slots
  // ---------------------------------------------------------------------

  /** `pad_sector`: zeros up to a whole number of sectors. */
  function PadSector(b: seq<bv8>): (r: seq<bv8>)
    ensures b <= r && |r| == SECTOR * Blocks(|b|)
    ensures forall i :: |b| <= i < |r| ==> r[i] == 0
  {
    var n := |b| % SECTOR;
    b + seq(if n != 0 then SECTOR - n else 0, _ => 0)
  }

  /** `(size + 511) / 512`. */
  function Blocks(size: nat): nat {
    (size + 511) / 512
  }

  function Sectors(b: seq<bv8>): (r: seq<Sector>)
    requires |b| % SECTOR == 0
    ensures |r| == |b| / SECTOR
  {
    seq(|b| / SECTOR, i requires 0 <= i < |b| / SECTOR => b[SECTOR * i..SECTOR * (i + 1)])
  }

  function Joined(s: seq<Sector>): (r: seq<bv8>)
    ensures |r| == SECTOR * |s|
  {
    if s == [] then [] else Joined(s[..|s| - 1]) + s[|s| - 1]
  }

  lemma {:induction false} JoinedSectors(b: seq<bv8>)
    requires |b| % SECTOR == 0
    ensures Joined(Sectors(b)) == b
    decreases |b|
  {
    hide Sectors;
    if b == [] {
    } else {
      LastSector(b);
      JoinedSectors(b[..|b| - SECTOR]);
    }
  }

  lemma LastSector(b: seq<bv8>)
    requires |b| % SECTOR == 0 && b != []
    ensures var p, s := b[..|b| - SECTOR], Sectors(b);
            && |p| % SECTOR == 0 && s != [] && s[..|s| - 1] == Sectors(p) && b == p + s[|s| - 1]
  {
    var p, s := b[..|b| - SECTOR], Sectors(b);
    var n := |s| - 1;
    assert |b| == SECTOR * (n + 1) && |p| == SECTOR * n && |p| / SECTOR == n;
    var t := Sectors(p);
    forall i | 0 <= i < n ensures t[i] == s[i] {
      assert p[SECTOR * i..SECTOR * (i + 1)] == b[SECTOR * i..SECTOR * (i + 1)];
    }
  }

  lemma {:induction false} JoinedInjective(s: seq<Sector>, t: seq<Sector>)
    requires |s| == |t| && Joined(s) == Joined(t)
    ensures s == t
    decreases |s|
  {
    if s == [] {
    } else {
      var n := |s| - 1;
      assert Joined(s)[..SECTOR * n] == Joined(s[..n]) && Joined(t)[..SECTOR * n] == Joined(t[..n]);
      assert Joined(s)[SECTOR * n..] == s[n] && Joined(t)[SECTOR * n..] == t[n];
      JoinedInjective(s[..n], t[..n]);
      assert s == s[..n] + [s[n]] && t == t[..n] + [t[n]];
    }
  }

  // ---------------------------------------------------------------------
  // The header
  // ---------------------------------------------------------------------

  datatype Header = Header(
    imageSz: nat, dtbSz: nat, initrdSz: nat,
    imageLba: nat, dtbLba: nat, initrdLba: nat,
    layoutVersion: nat, imageMaxSec: nat, dtbMaxSec: nat, initrdMaxSec: nat)

  function HeaderFor(imageSz: nat, dtbSz: nat, initrdSz: nat): Header {
    Header(imageSz, dtbSz, initrdSz, IMG_LBA, DTB_LBA, IRD_LBA, LAYOUT_VERSION, IMG_MAX_SEC, DTB_MAX_SEC, IRD_MAX_SEC)
  }

  /** `struct.pack("<II...")`. */
  function PackWords(ws: seq<nat>): (r: seq<bv8>)
    ensures |r| == 4 * |ws|
  {
    if ws == [] then [] else PackWords(ws[..|ws| - 1]) + PackU32(ws[|ws| - 1])
  }

  function Words(h: Header): seq<nat> {
    [h.imageSz, h.dtbSz, h.initrdSz, h.imageLba, h.dtbLba, h.initrdLba,
     h.layoutVersion, h.imageMaxSec, h.dtbMaxSec, h.initrdMaxSec]
  }

  function BuildHeader(imageSz: nat, dtbSz: nat, initrdSz: nat): (r: Sector) {
    PadSector(MAGIC + PackWords(Words(HeaderFor(imageSz, dtbSz, initrdSz))))
  }

  lemma {:induction false} PackedWord(ws: seq<nat>, i: nat)
    requires i < |ws|
    ensures PackWords(ws)[4 * i..4 * i + 4] == PackU32(ws[i])
    decreases |ws|
  {
    hide PackU32;
    var n := |ws| - 1;
    if i < n {
      PackedWord(ws[..n], i);
      assert PackWords(ws)[4 * i..4 * i + 4] == PackWords(ws[..n])[4 * i..4 * i + 4];
    }
  }

  /** The little-endian word at byte offset `i`. */
  function Field(s: Sector, i: nat): nat
    requires i + 4 <= SECTOR
  {
    UnpackU32(s[i..i + 4])
  }

  function ParseHeader(s: Sector): Result<Header> {
    if s[..8] != MAGIC then Err(BadMagic)
    else Ok(Header(Field(s, 8), Field(s, 12), Field(s, 16), Field(s, 20), Field(s, 24), Field(s, 28),
                   Field(s, 32), Field(s, 36), Field(s, 40), Field(s, 44)))
  }

  /** `verify_layout`: everything but the sizes is as `sd_pack` writes it. */
  predicate LayoutMatches(h: Header) {
    h == HeaderFor(h.imageSz, h.dtbSz, h.initrdSz)
  }

  lemma HeaderField(ws: seq<nat>, i: nat)
    requires |ws| == 10 && i < 10 && ws[i] < TWO_32
    ensures |PadSector(MAGIC + PackWords(ws))| == SECTOR
    ensures Field(PadSector(MAGIC + PackWords(ws)), 8 + 4 * i) == ws[i]
    ensures PadSector(MAGIC + PackWords(ws))[..8] == MAGIC
  {
    hide PackU32, UnpackU32, PackWords, PadSector;
    var h := MAGIC + PackWords(ws);
    var s := PadSector(h);
    assert s[..48] == h;
    assert s[8 + 4 * i..8 + 4 * i + 4] == h[8 + 4 * i..8 + 4 * i + 4] == PackWords(ws)[4 * i..4 * i + 4];
    PackedWord(ws, i);
    U32RoundTrip(ws[i]);
  }

  /** Parsing a built header gives back the sizes and the layout. */
  lemma HeaderRoundTrip(imageSz: nat, dtbSz: nat, initrdSz: nat)
    requires imageSz < TWO_32 && dtbSz < TWO_32 && initrdSz < TWO_32
    ensures ParseHeader(BuildHeader(imageSz, dtbSz, initrdSz)) == Ok(HeaderFor(imageSz, dtbSz, initrdSz))
  {
    hide PadSector, PackWords, Field;
    var ws := Words(HeaderFor(imageSz, dtbSz, initrdSz));
    HeaderField(ws, 0);
    HeaderField(ws, 1);
    HeaderField(ws, 2);
    HeaderField(ws, 3);
    HeaderField(ws, 4);
    HeaderField(ws, 5);
    HeaderField(ws, 6);
    HeaderField(ws, 7);
    HeaderField(ws, 8);
    HeaderField(ws, 9);
  }

  /** Where the fields lie in the sector, as the loader's struct has them. */
  predicate HeaderLayout(s: Sector, imageSz: nat, dtbSz: nat, initrdSz: nat) {
    && s[..8] == [0x4E, 0x45, 0x4F, 0x4C, 0x4E, 0x58, 0, 0]
    && Field(s, 8) == imageSz && Field(s, 12) == dtbSz && Field(s, 16) == initrdSz
    && Field(s, 20) == 1 && Field(s, 24) == 4001 && Field(s, 28) == 4009
    && Field(s, 32) == 1
    && Field(s, 36) == 4000 && Field(s, 40) == 8 && Field(s, 44) == 4000
    && forall i :: 48 <= i < 512 ==> s[i] == 0
  }

  lemma HeaderOnCard(imageSz: nat, dtbSz: nat, initrdSz: nat)
    requires imageSz < TWO_32 && dtbSz < TWO_32 && initrdSz < TWO_32
    ensures HeaderLayout(BuildHeader(imageSz, dtbSz, initrdSz), imageSz, dtbSz, initrdSz)
  {
    hide BuildHeader, Field;
    HeaderRoundTrip(imageSz, dtbSz, initrdSz);
    HeaderEnds(imageSz, dtbSz, initrdSz);
  }

  lemma HeaderEnds(imageSz: nat, dtbSz: nat, initrdSz: nat)
    ensures forall i :: 48 <= i < 512 ==> BuildHeader(imageSz, dtbSz, initrdSz)[i] == 0
  {
    hide PackWords, PadSector;
    assert |MAGIC + PackWords(Words(HeaderFor(imageSz, dtbSz, initrdSz)))| == 48;
  }

  // ---------------------------------------------------------------------
  // The card
  // ---------------------------------------------------------------------

  /** A run of sectors to be written from `lba` on. */
  datatype Segment = Segment(lba: nat, data: seq<Sector>)

  function Write(c: seq<Sector>, g: Segment): (r: seq<Sector>)
    requires g.lba + |g.data| <= |c|
    ensures |r| == |c|
  {
    c[..g.lba] + g.data + c[g.lba + |g.data|..]
  }

  predicate Fit(c: seq<Sector>, gs: seq<Segment>) {
    forall g :: g in gs ==> g.lba + |g.data| <= |c|
  }

  function WriteAll(c: seq<Sector>, gs: seq<Segment>): (r: seq<Sector>)
    requires Fit(c, gs)
    ensures |r| == |c|
  {
    if gs == [] then c else Write(WriteAll(c, gs[..|gs| - 1]), gs[|gs| - 1])
  }

  /** `data` is stored from `lba` on; no data is stored anywhere. */
  predicate Holds(c: seq<Sector>, lba: nat, data: seq<Sector>) {
    data == [] || (lba + |data| <= |c| && c[lba..lba + |data|] == data)
  }

  predicate Apart(g: Segment, lba: nat, n: nat) {
    lba + n <= g.lba || g.lba + |g.data| <= lba
  }

  lemma WriteHolds(c: seq<Sector>, g: Segment)
    requires g.lba + |g.data| <= |c|
    ensures Holds(Write(c, g), g.lba, g.data)
  {
  }

  lemma WriteKeeps(c: seq<Sector>, g: Segment, lba: nat, data: seq<Sector>)
    requires g.lba + |g.data| <= |c| && Apart(g, lba, |data|)
    ensures Holds(Write(c, g), lba, data) <==> Holds(c, lba, data)
  {
    if lba + |data| <= |c| {
      var r := Write(c, g);
      assert r[lba..lba + |data|] == c[lba..lba + |data|];
    }
  }

  /** After writing segments that do not overlap `g`, its data is on the card
      exactly if it was written or was there already. */
  lemma {:induction false} WriteAllHolds(c: seq<Sector>, gs: seq<Segment>, g: Segment)
    requires Fit(c, gs) && forall h :: h in gs ==> h == g || Apart(h, g.lba, |g.data|)
    ensures Holds(WriteAll(c, gs), g.lba, g.data) <==> g in gs || Holds(c, g.lba, g.data)
    decreases |gs|
  {
    hide Holds, Apart, Write;
    if gs == [] {
    } else {
      var p, h := gs[..|gs| - 1], gs[|gs| - 1];
      assert gs == p + [h];
      WriteAllHolds(c, p, g);
      if h == g {
        WriteHolds(WriteAll(c, p), g);
      } else {
        WriteKeeps(WriteAll(c, p), h, g.lba, g.data);
      }
    }
  }

  /** Sectors no segment covers are left alone. */
  lemma {:induction false} WriteAllKeeps(c: seq<Sector>, gs: seq<Segment>, lba: nat)
    requires Fit(c, gs) && lba < |c| && forall h :: h in gs ==> Apart(h, lba, 1)
    ensures WriteAll(c, gs)[lba] == c[lba]
    decreases |gs|
  {
    if gs == [] {
    } else {
      WriteAllKeeps(c, gs[..|gs| - 1], lba);
      assert Apart(gs[|gs| - 1], lba, 1);
    }
  }

  // ---------------------------------------------------------------------
  // Booting from the card
  // ---------------------------------------------------------------------

  /** What the SD boot reads from the card. */
  datatype Loaded = Loaded(image: seq<bv8>, dtb: seq<bv8>, initrd: seq<bv8>, initrdSize: nat)

  /** `sd_read_many`. */
  function ReadMany(c: seq<Sector>, lba: nat, n: nat): Option<seq<bv8>> {
    if n == 0 then Some([]) else if lba + n <= |c| then Some(Joined(c[lba..lba + n])) else None
  }

  /** The sectors `mode_sd_boot` reads, in 32-bit arithmetic. */
  function BlocksRead(size: nat): nat {
    (size + 511) % TWO_32 / 512
  }

  /** `mode_sd_boot`: the header's magic, sizes and slot addresses decide what is
      read; the layout version is not looked at. */
  function Boot(c: seq<Sector>): Option<Loaded>
    requires c != []
  {
    match ParseHeader(c[HDR_LBA])
    case Err(_) => None
    case Ok(h) =>
      var image := ReadMany(c, h.imageLba, BlocksRead(h.imageSz));
      var dtb := ReadMany(c, h.dtbLba, BlocksRead(h.dtbSz));
      var initrd := ReadMany(c, h.initrdLba, BlocksRead(h.initrdSz));
      if image.Some? && dtb.Some? && initrd.Some?
      then Some(Loaded(image.value, dtb.value, initrd.value, h.initrdSz)) else None
  }

  // ---------------------------------------------------------------------
  // Full and partial writes
  // ---------------------------------------------------------------------

  datatype Files = Files(image: seq<bv8>, dtb: seq<bv8>, initrd: seq<bv8>)

  predicate FitSlots(f: Files) {
    Blocks(|f.image|) <= IMG_MAX_SEC && Blocks(|f.dtb|) <= DTB_MAX_SEC && Blocks(|f.initrd|) <= IRD_MAX_SEC
  }

  function Padded(b: seq<bv8>): (r: seq<Sector>)
    ensures |r| == Blocks(|b|)
  {
    Sectors(PadSector(b))
  }

  function HeaderSegment(f: Files): Segment {
    Segment(HDR_LBA, [BuildHeader(|f.image|, |f.dtb|, |f.initrd|)])
  }

  function ImageSegment(f: Files): Segment {
    Segment(IMG_LBA, Padded(f.image))
  }

  function DtbSegment(f: Files): Segment {
    Segment(DTB_LBA, Padded(f.dtb))
  }

  function InitrdSegment(f: Files): Segment {
    Segment(IRD_LBA, Padded(f.initrd))
  }

  function PackSegments(f: Files): seq<Segment> {
    [HeaderSegment(f), ImageSegment(f), DtbSegment(f), InitrdSegment(f)]
  }

  /** Which slots an update rewrites. */
  datatype Choice = Choice(kernel: bool, dtb: bool, initrd: bool)

  function UpdateSegments(f: Files, w: Choice): seq<Segment> {
    [HeaderSegment(f)]
    + (if w.kernel then [ImageSegment(f)] else [])
    + (if w.dtb then [DtbSegment(f)] else [])
    + (if w.initrd then [InitrdSegment(f)] else [])
  }

  /** What the SD boot reads from a card packed with these files. */
  function Intended(f: Files): Loaded {
    Loaded(PadSector(f.image), PadSector(f.dtb), PadSector(f.initrd), |f.initrd|)
  }

  lemma ReadsBack(c: seq<Sector>, lba: nat, b: seq<bv8>)
    ensures ReadMany(c, lba, Blocks(|b|)) == Some(PadSector(b)) <==> Holds(c, lba, Padded(b))
  {
    hide Joined, PadSector, Sectors;
    JoinedSectors(PadSector(b));
    if Blocks(|b|) > 0 && lba + Blocks(|b|) <= |c| && Joined(c[lba..lba + Blocks(|b|)]) == PadSector(b) {
      JoinedInjective(c[lba..lba + Blocks(|b|)], Padded(b));
    }
  }

  /** The bytes of `b`, one after the other, from sector `lba` on. */
  ghost predicate BytesFrom(c: seq<Sector>, lba: nat, b: seq<bv8>) {
    && (b != [] ==> lba + Blocks(|b|) <= |c|)
    && forall i :: 0 <= i < |b| ==> c[lba + i / 512][i % 512] == b[i]
  }

  lemma {:induction false} JoinedByte(s: seq<Sector>, i: nat)
    requires i < 512 * |s|
    ensures Joined(s)[i] == s[i / 512][i % 512]
    decreases |s|
  {
    var n := |s| - 1;
    if i < 512 * n {
      JoinedByte(s[..n], i);
    } else {
      assert i / 512 == n && i % 512 == i - 512 * n;
    }
  }

  /** What is read is what the sectors hold, byte by byte. */
  lemma ReadManyBytes(c: seq<Sector>, lba: nat, n: nat)
    requires ReadMany(c, lba, n).Some?
    ensures var r := ReadMany(c, lba, n).value; |r| == 512 * n && BytesFrom(c, lba, r)
  {
    hide Joined;
    var r := ReadMany(c, lba, n).value;
    forall i | 0 <= i < |r| ensures c[lba + i / 512][i % 512] == r[i] {
      JoinedByte(c[lba..lba + n], i);
    }
  }

  lemma HeldBytes(c: seq<Sector>, lba: nat, b: seq<bv8>)
    requires Holds(c, lba, Padded(b))
    ensures BytesFrom(c, lba, b)
  {
    hide Padded, PadSector;
    ReadsBack(c, lba, b);
    ReadManyBytes(c, lba, Blocks(|b|));
    assert PadSector(b)[..|b|] == b;
    assert forall i :: 0 <= i < |b| ==> b[i] == PadSector(b)[i];
  }

  lemma SlotsBelowTwo32(f: Files)
    requires FitSlots(f)
    ensures |f.image| < TWO_32 && |f.dtb| < TWO_32 && |f.initrd| < TWO_32
    ensures BlocksRead(|f.image|) == Blocks(|f.image|) && BlocksRead(|f.dtb|) == Blocks(|f.dtb|)
    ensures BlocksRead(|f.initrd|) == Blocks(|f.initrd|)
  {
  }

  /** From a card with the right header the SD boot reads the files exactly if their
      slots hold them. */
  lemma BootsIff(c: seq<Sector>, f: Files)
    requires FitSlots(f) && c != [] && Holds(c, HDR_LBA, HeaderSegment(f).data)
    ensures Boot(c) == Some(Intended(f)) <==>
              && Holds(c, IMG_LBA, Padded(f.image))
              && Holds(c, DTB_LBA, Padded(f.dtb))
              && Holds(c, IRD_LBA, Padded(f.initrd))
  {
    hide PadSector, Padded, ParseHeader, BuildHeader, ReadMany;
    SlotsBelowTwo32(f);
    HeaderRoundTrip(|f.image|, |f.dtb|, |f.initrd|);
    HeaderSector(c, f);
    ReadsBack(c, IMG_LBA, f.image);
    ReadsBack(c, DTB_LBA, f.dtb);
    ReadsBack(c, IRD_LBA, f.initrd);
  }

  lemma HeaderSector(c: seq<Sector>, f: Files)
    requires c != [] && Holds(c, HDR_LBA, HeaderSegment(f).data)
    ensures c[HDR_LBA] == BuildHeader(|f.image|, |f.dtb|, |f.initrd|)
  {
    hide BuildHeader;
    assert c[HDR_LBA] == c[HDR_LBA..HDR_LBA + 1][0];
  }

  lemma SlotsApart(f: Files, w: Choice)
    requires FitSlots(f)
    ensures forall g, h ::
              g in PackSegments(f) && h in UpdateSegments(f, w) ==> h == g || Apart(h, g.lba, |g.data|)
    ensures forall g :: g in UpdateSegments(f, w) ==> g in PackSegments(f)
    ensures forall g :: g in PackSegments(f) ==> g.lba + |g.data| <= END_LBA
  {
    hide Padded, BuildHeader;
  }

  lemma UpdateContains(f: Files, w: Choice)
    requires FitSlots(f)
    ensures HeaderSegment(f) in UpdateSegments(f, w)
    ensures ImageSegment(f) in UpdateSegments(f, w) <==> w.kernel
    ensures DtbSegment(f) in UpdateSegments(f, w) <==> w.dtb
    ensures InitrdSegment(f) in UpdateSegments(f, w) <==> w.initrd
  {
    hide Padded, BuildHeader;
  }

  /** After any update the SD boot reads the files exactly if every slot left alone
      already held its file. Stale sectors behind the data do not matter. */
  lemma UpdateBootsIff(c: seq<Sector>, f: Files, w: Choice)
    requires |c| >= END_LBA && FitSlots(f)
    ensures Fit(c, UpdateSegments(f, w))
    ensures Boot(WriteAll(c, UpdateSegments(f, w))) == Some(Intended(f)) <==>
              && (w.kernel || Holds(c, IMG_LBA, Padded(f.image)))
              && (w.dtb || Holds(c, DTB_LBA, Padded(f.dtb)))
              && (w.initrd || Holds(c, IRD_LBA, Padded(f.initrd)))
  {
    hide Padded, BuildHeader, WriteAll, UpdateSegments, Boot, Intended, Holds;
    SlotsApart(f, w);
    UpdateContains(f, w);
    var gs := UpdateSegments(f, w);
    WriteAllHolds(c, gs, HeaderSegment(f));
    WriteAllHolds(c, gs, ImageSegment(f));
    WriteAllHolds(c, gs, DtbSegment(f));
    WriteAllHolds(c, gs, InitrdSegment(f));
    BootsIff(WriteAll(c, gs), f);
  }

  lemma PackIsFullUpdate(f: Files)
    ensures PackSegments(f) == UpdateSegments(f, Choice(true, true, true))
  {
    hide Padded, BuildHeader;
  }

  /** The incremental update refines the full repack: booting after one is booting
      after the other, whatever card was repacked, if and only if the slots left
      alone already held their files. */
  lemma UpdateRefinesPack(c: seq<Sector>, d: seq<Sector>, f: Files, w: Choice)
    requires |c| >= END_LBA && |d| >= END_LBA && FitSlots(f)
    ensures Fit(c, UpdateSegments(f, w)) && Fit(d, PackSegments(f))
    ensures Boot(WriteAll(c, UpdateSegments(f, w))) == Boot(WriteAll(d, PackSegments(f))) <==>
              && (w.kernel || Holds(c, IMG_LBA, Padded(f.image)))
              && (w.dtb || Holds(c, DTB_LBA, Padded(f.dtb)))
              && (w.initrd || Holds(c, IRD_LBA, Padded(f.initrd)))
  {
    hide Padded, BuildHeader, WriteAll, UpdateSegments, PackSegments, Boot, Intended, Holds;
    UpdateBootsIff(c, f, w);
    UpdateBootsIff(d, f, Choice(true, true, true));
    PackIsFullUpdate(f);
  }

  // ---------------------------------------------------------------------
  // The host's two programs
  // ---------------------------------------------------------------------

  class Card {
    var sectors: seq<Sector>
  }

  const MAX_SEGMENTS := 16
  const MAX_SECTORS := 8192

  /** What the loader accepts in a multi-segment write. */
  predicate Writable(gs: seq<Segment>) {
    1 <= |gs| <= 16 && forall g :: g in gs ==> 1 <= |g.data| <= 8192
  }

  /** A place in a multi-segment write: `s` segments and `i` sectors of the next. */
  predicate Position(gs: seq<Segment>, s: nat, i: nat) {
    s <= |gs| && if s < |gs| then i <= |gs[s].data| else i == 0
  }

  /** The card after the first `s` segments and `i` sectors of the next one. */
  function Written(c: seq<Sector>, gs: seq<Segment>, s: nat, i: nat): (r: seq<Sector>)
    requires Fit(c, gs) && Position(gs, s, i)
    ensures |r| == |c|
  {
    var done := WriteAll(c, gs[..s]);
    if i == 0 then done else assert gs[s] in gs; Write(done, Segment(gs[s].lba, gs[s].data[..i]))
  }

  /** Some part of the write, from its beginning, is on the card. */
  ghost predicate PartWritten(c: seq<Sector>, gs: seq<Segment>, d: seq<Sector>)
    requires Fit(c, gs)
  {
    exists s: nat, i: nat :: Position(gs, s, i) && d == Written(c, gs, s, i)
  }

  /** The write as both ends carry it out: sector by sector, segment by segment,
      refused as soon as a count is out of range. Unless card and line are `sound` it
      may fail at any sector, before or after the card has taken it. */
  method MultiSegWrite(card: Card, gs: seq<Segment>, sound: bool) returns (ok: bool)
    requires Fit(card.sectors, gs)
    modifies card
    ensures PartWritten(old(card.sectors), gs, card.sectors)
    ensures ok ==> Writable(gs) && card.sectors == WriteAll(old(card.sectors), gs)
    ensures sound && Writable(gs) ==> ok
  {
    hide Write, WriteAll, Written;
    ghost var was := card.sectors;
    WrittenStart(was, gs);
    if |gs| == 0 || |gs| > MAX_SEGMENTS {
      return false;
    }
    for s := 0 to |gs|
      invariant Fit(was, gs) && card.sectors == Written(was, gs, s, 0)
      invariant forall g :: g in gs[..s] ==> 1 <= |g.data| <= MAX_SECTORS
    {
      var g := gs[s];
      assert Position(gs, s, 0) && g in gs && gs[..s + 1] == gs[..s] + [g];
      if |g.data| == 0 || |g.data| > MAX_SECTORS {
        return false;
      }
      for i := 0 to |g.data|
        invariant card.sectors == Written(was, gs, s, i)
      {
        var works: bool, stored: bool := *, *;
        WrittenNext(was, gs, s, i);
        assert Position(gs, s, i) && Position(gs, s, i + 1);
        if works || sound || stored {
          card.sectors := card.sectors[g.lba + i := g.data[i]];
        }
        if !(works || sound) {
          return false;
        }
      }
      WrittenSegment(was, gs, s);
    }
    assert gs[..|gs|] == gs && Position(gs, |gs|, 0);
    WrittenEnd(was, gs);
    ok := true;
  }

  lemma WrittenStart(c: seq<Sector>, gs: seq<Segment>)
    requires Fit(c, gs)
    ensures Position(gs, 0, 0) && Written(c, gs, 0, 0) == c
  {
    assert gs[..0] == [];
  }

  lemma WrittenEnd(c: seq<Sector>, gs: seq<Segment>)
    requires Fit(c, gs)
    ensures Written(c, gs, |gs|, 0) == WriteAll(c, gs)
  {
    assert gs[..|gs|] == gs;
  }

  lemma WrittenNext(c: seq<Sector>, gs: seq<Segment>, s: nat, i: nat)
    requires Fit(c, gs) && s < |gs| && i < |gs[s].data|
    ensures gs[s].lba + i < |c| && Position(gs, s, i) && Position(gs, s, i + 1)
    ensures Written(c, gs, s, i)[gs[s].lba + i := gs[s].data[i]] == Written(c, gs, s, i + 1)
  {
    hide Write, WriteAll;
    var g, done := gs[s], WriteAll(c, gs[..s]);
    assert g in gs;
    WriteNothing(done, g.lba);
    WriteOneMore(done, g, i);
    assert g.data[..0] == [];
  }

  lemma WrittenSegment(c: seq<Sector>, gs: seq<Segment>, s: nat)
    requires Fit(c, gs) && s < |gs| && gs[s].data != []
    ensures Written(c, gs, s, |gs[s].data|) == Written(c, gs, s + 1, 0)
  {
    hide Write;
    assert gs[s] in gs;
    assert gs[s].data[..|gs[s].data|] == gs[s].data;
    assert gs[..s + 1][..s] == gs[..s];
  }

  lemma WriteNothing(c: seq<Sector>, lba: nat)
    requires lba <= |c|
    ensures Write(c, Segment(lba, [])) == c
  {
  }

  lemma WriteOneMore(c: seq<Sector>, g: Segment, i: nat)
    requires g.lba + |g.data| <= |c| && i < |g.data|
    ensures Write(c, Segment(g.lba, g.data[..i]))[g.lba + i := g.data[i]] == Write(c, Segment(g.lba, g.data[..i + 1]))
  {
  }

  predicate Rewritten(f: Files, w: Choice) {
    (w.kernel ==> f.image != []) && (w.dtb ==> f.dtb != []) && (w.initrd ==> f.initrd != [])
  }

  /** `update_sd`: check the slots, read and verify the header on the card, write
      the header and the chosen slots. Every refusal before the write leaves the
      card alone, a failure during it leaves a part written, and with a sound card
      and line it fails only for an empty file in a chosen slot. */
  method UpdateSd(card: Card, f: Files, w: Choice, sound: bool) returns (r: Result<(Header, Header)>)
    requires |card.sectors| >= END_LBA
    modifies card
    ensures !FitSlots(f) ==> r == Err(Overflow)
    ensures FitSlots(f) && ParseHeader(old(card.sectors)[HDR_LBA]).Err? ==> r == Err(BadMagic)
    ensures FitSlots(f) && ParseHeader(old(card.sectors)[HDR_LBA]).Ok? ==>
              var h := ParseHeader(old(card.sectors)[HDR_LBA]).value;
              if || h.layoutVersion != 1 || h.imageLba != 1 || h.dtbLba != 4001 || h.initrdLba != 4009
                 || h.imageMaxSec != 4000 || h.dtbMaxSec != 8 || h.initrdMaxSec != 4000
              then r == Err(LayoutMismatch)
              else
                && (r == Err(WriteFailed) || r == Ok((h, HeaderFor(|f.image|, |f.dtb|, |f.initrd|))))
                && (r.Ok? ==> Rewritten(f, w)) && (sound && Rewritten(f, w) ==> r.Ok?)
    ensures r.Err? && r.error != WriteFailed ==> card.sectors == old(card.sectors)
    ensures r == Err(WriteFailed) ==>
              && Fit(old(card.sectors), UpdateSegments(f, w))
              && PartWritten(old(card.sectors), UpdateSegments(f, w), card.sectors)
    ensures r.Ok? ==>
              && FitSlots(f)
              && Fit(old(card.sectors), UpdateSegments(f, w))
              && card.sectors == WriteAll(old(card.sectors), UpdateSegments(f, w))
              && ParseHeader(card.sectors[HDR_LBA]) == Ok(r.value.1)
  {
    hide Padded, BuildHeader, ParseHeader, WriteAll, PartWritten;
    if !(Blocks(|f.image|) <= IMG_MAX_SEC && Blocks(|f.dtb|) <= DTB_MAX_SEC && Blocks(|f.initrd|) <= IRD_MAX_SEC) {
      return Err(Overflow);
    }
    var parsed := ParseHeader(card.sectors[HDR_LBA]);
    if parsed.Err? {
      ParseErrors(card.sectors[HDR_LBA]);
      return Err(parsed.error);
    }
    if !LayoutMatches(parsed.value) {
      return Err(LayoutMismatch);
    }
    var segments := [HeaderSegment(f)];
    if w.kernel { segments := segments + [ImageSegment(f)]; }
    if w.dtb { segments := segments + [DtbSegment(f)]; }
    if w.initrd { segments := segments + [InitrdSegment(f)]; }
    SegmentsAre(f, w, segments);
    UpdateWritable(f, w);
    SlotsApart(f, w);
    HeaderWritten(card.sectors, f, w);
    hide UpdateSegments;
    var ok := MultiSegWrite(card, segments, sound);
    if !ok {
      return Err(WriteFailed);
    }
    r := Ok((parsed.value, HeaderFor(|f.image|, |f.dtb|, |f.initrd|)));
  }

  lemma ParseErrors(s: Sector)
    ensures ParseHeader(s).Err? ==> ParseHeader(s) == Err(BadMagic)
  {
  }

  lemma SegmentsAre(f: Files, w: Choice, segments: seq<Segment>)
    requires var s1 := [HeaderSegment(f)];
             var s2 := if w.kernel then s1 + [ImageSegment(f)] else s1;
             var s3 := if w.dtb then s2 + [DtbSegment(f)] else s2;
             segments == if w.initrd then s3 + [InitrdSegment(f)] else s3
    ensures segments == UpdateSegments(f, w)
  {
    hide HeaderSegment, ImageSegment, DtbSegment, InitrdSegment;
  }

  lemma UpdateWritable(f: Files, w: Choice)
    requires FitSlots(f)
    ensures Writable(UpdateSegments(f, w)) <==> Rewritten(f, w)
  {
    hide BuildHeader, PadSector, Sectors;
    UpdateContains(f, w);
    SlotsApart(f, w);
    assert f.image == [] <==> Blocks(|f.image|) == 0;
    assert f.dtb == [] <==> Blocks(|f.dtb|) == 0;
    assert f.initrd == [] <==> Blocks(|f.initrd|) == 0;
  }

  lemma HeaderWritten(c: seq<Sector>, f: Files, w: Choice)
    requires |c| >= END_LBA && FitSlots(f)
    ensures Fit(c, UpdateSegments(f, w))
    ensures ParseHeader(WriteAll(c, UpdateSegments(f, w))[HDR_LBA]) == Ok(HeaderFor(|f.image|, |f.dtb|, |f.initrd|))
  {
    hide Padded, BuildHeader, WriteAll, UpdateSegments, ParseHeader, Holds;
    SlotsApart(f, w);
    UpdateContains(f, w);
    WriteAllHolds(c, UpdateSegments(f, w), HeaderSegment(f));
    HeaderSector(WriteAll(c, UpdateSegments(f, w)), f);
    SlotsBelowTwo32(f);
    HeaderRoundTrip(|f.image|, |f.dtb|, |f.initrd|);
  }

  /** `sd_pack`: check the slots and write everything. After a successful pack the
      SD boot reads the files. */
  method PackSd(card: Card, f: Files, sound: bool) returns (r: Result<Header>)
    requires |card.sectors| >= END_LBA
    modifies card
    ensures !FitSlots(f) ==> r == Err(Overflow) && card.sectors == old(card.sectors)
    ensures r.Ok? ==> FitSlots(f) && Rewritten(f, Choice(true, true, true))
    ensures sound && FitSlots(f) && Rewritten(f, Choice(true, true, true)) ==> r.Ok?
    ensures r.Ok? ==>
              && Fit(old(card.sectors), PackSegments(f)) && card.sectors == WriteAll(old(card.sectors), PackSegments(f))
              && Boot(card.sectors) == Some(Intended(f))
              && BytesFrom(card.sectors, 1, f.image) && BytesFrom(card.sectors, 4001, f.dtb)
              && BytesFrom(card.sectors, 4009, f.initrd)
    ensures r == Err(WriteFailed) ==>
              && Fit(old(card.sectors), PackSegments(f))
              && PartWritten(old(card.sectors), PackSegments(f), card.sectors)
  {
    hide Padded, BuildHeader, WriteAll, Boot, Intended, PartWritten, Holds, BytesFrom;
    if !FitSlots(f) {
      return Err(Overflow);
    }
    var w := Choice(true, true, true);
    PackIsFullUpdate(f);
    UpdateWritable(f, w);
    UpdateBootsIff(card.sectors, f, w);
    PackedHolds(card.sectors, f);
    var ok := MultiSegWrite(card, PackSegments(f), sound);
    if !ok {
      return Err(WriteFailed);
    }
    HeldBytes(card.sectors, IMG_LBA, f.image);
    HeldBytes(card.sectors, DTB_LBA, f.dtb);
    HeldBytes(card.sectors, IRD_LBA, f.initrd);
    r := Ok(HeaderFor(|f.image|, |f.dtb|, |f.initrd|));
  }

  /** A card that was packed can be updated: the layout is recognised, and when the
      files left alone are the packed ones, the SD boot reads the new files. */
  method PackThenUpdate(card: Card, f: Files, g: Files, w: Choice, lineUp: bool)
    returns (packed: bool, updated: Result<(Header, Header)>)
    requires |card.sectors| >= END_LBA
    modifies card
    ensures lineUp && FitSlots(f) && Rewritten(f, Choice(true, true, true)) ==> packed
    ensures packed && FitSlots(g) && Rewritten(g, w) ==> updated.Ok?
    ensures packed && updated.Ok? ==>
              && |card.sectors| >= END_LBA && updated.value.0 == HeaderFor(|f.image|, |f.dtb|, |f.initrd|)
              && ((w.kernel || g.image == f.image) && (w.dtb || g.dtb == f.dtb) && (w.initrd || g.initrd == f.initrd)
                  ==> Boot(card.sectors) == Some(Intended(g)))
  {
    hide Padded, BuildHeader, WriteAll, Boot, Intended, PartWritten, UpdateSegments, PackSegments, ParseHeader, Holds;
    ghost var was := card.sectors;
    var r := PackSd(card, f, lineUp);
    packed, updated := r.Ok?, Err(WriteFailed);
    if packed {
      PackIsFullUpdate(f);
      HeaderWritten(was, f, Choice(true, true, true));
      PackedHolds(was, f);
      ghost var c := card.sectors;
      updated := UpdateSd(card, g, w, true);
      if updated.Ok? { UpdateBootsIff(c, g, w); }
    }
  }

  lemma PackedHolds(c: seq<Sector>, f: Files)
    requires |c| >= END_LBA && FitSlots(f)
    ensures var d := WriteAll(c, UpdateSegments(f, Choice(true, true, true)));
            && Holds(d, IMG_LBA, Padded(f.image)) && Holds(d, DTB_LBA, Padded(f.dtb))
            && Holds(d, IRD_LBA, Padded(f.initrd))
  {
    hide Padded, BuildHeader, WriteAll, UpdateSegments, Holds;
    var w := Choice(true, true, true);
    SlotsApart(f, w);
    UpdateContains(f, w);
    WriteAllHolds(c, UpdateSegments(f, w), ImageSegment(f));
    WriteAllHolds(c, UpdateSegments(f, w), DtbSegment(f));
    WriteAllHolds(c, UpdateSegments(f, w), InitrdSegment(f));
  }
}
