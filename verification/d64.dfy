/**
 * The D64 disk-image reader: the track map, sector lookup with circular-link
 * detection, the directory listing (PRG files only) and the sector chain of one file.
 */
module D64 {
  import opened Common

  /** One row of the track map: the sectors on a track and the image offset of its sector 0. */
  datatype Track = Track(sectors: nat, offset: nat)

  /** The track map: tracks 1 to 42 of a 1541 disk, 256 bytes per sector. */
  function TrackMap(t: int): (r: Option<Track>)
    ensures r.Some? <==> 1 <= t <= 42
    ensures r.Some? ==> 17 <= r.value.sectors <= 21
  {
    match t
      case 1 => Some(Track(21, 0x00000))
      case 2 => Some(Track(21, 0x01500))
      case 3 => Some(Track(21, 0x02A00))
      case 4 => Some(Track(21, 0x03F00))
      case 5 => Some(Track(21, 0x05400))
      case 6 => Some(Track(21, 0x06900))
      case 7 => Some(Track(21, 0x07E00))
      case 8 => Some(Track(21, 0x09300))
      case 9 => Some(Track(21, 0x0A800))
      case 10 => Some(Track(21, 0x0BD00))
      case 11 => Some(Track(21, 0x0D200))
      case 12 => Some(Track(21, 0x0E700))
      case 13 => Some(Track(21, 0x0FC00))
      case 14 => Some(Track(21, 0x11100))
      case 15 => Some(Track(21, 0x12600))
      case 16 => Some(Track(21, 0x13B00))
      case 17 => Some(Track(21, 0x15000))
      case 18 => Some(Track(19, 0x16500))
      case 19 => Some(Track(19, 0x17800))
      case 20 => Some(Track(19, 0x18B00))
      case 21 => Some(Track(19, 0x19E00))
      case 22 => Some(Track(19, 0x1B100))
      case 23 => Some(Track(19, 0x1C400))
      case 24 => Some(Track(19, 0x1D700))
      case 25 => Some(Track(18, 0x1EA00))
      case 26 => Some(Track(18, 0x1FC00))
      case 27 => Some(Track(18, 0x20E00))
      case 28 => Some(Track(18, 0x22000))
      case 29 => Some(Track(18, 0x23200))
      case 30 => Some(Track(18, 0x24400))
      case 31 => Some(Track(17, 0x25600))
      case 32 => Some(Track(17, 0x26700))
      case 33 => Some(Track(17, 0x27800))
      case 34 => Some(Track(17, 0x28900))
      case 35 => Some(Track(17, 0x29A00))
      case 36 => Some(Track(17, 0x2AB00))
      case 37 => Some(Track(17, 0x2BC00))
      case 38 => Some(Track(17, 0x2CD00))
      case 39 => Some(Track(17, 0x2DE00))
      case 40 => Some(Track(17, 0x2EF00))
      case 41 => Some(Track(17, 0x30000))
      case 42 => Some(Track(17, 0x31100))
      case _ => None
  }

  /** The sectors per track of the four speed zones, as an independent reference for the map. */
  function ZoneSectors(t: int): nat
  {
    if t <= 17 then 21 else if t <= 24 then 19 else if t <= 30 then 18 else 17
  }

  /** Image offset of track `t`: the sectors of all earlier tracks, 256 bytes each. */
  function TrackStart(t: int): nat
    decreases t
  {
    if t <= 1 then 0 else TrackStart(t - 1) + 256 * ZoneSectors(t - 1)
  }

  /** Consecutive tracks of the map abut: each one starts where the previous one ends. */
  lemma TrackMapAbuts(t: int)
    requires 1 <= t < 42
    ensures TrackMap(t + 1).value.offset == TrackMap(t).value.offset + 256 * TrackMap(t).value.sectors
    ensures TrackMap(t).value.sectors == ZoneSectors(t)
  {
  }

  /** The map agrees with the zone layout: every track starts right after the tracks before it. */
  lemma {:induction false} TrackMapIsZoned(t: int)
    requires 1 <= t <= 42
    ensures TrackMap(t) == Some(Track(ZoneSectors(t), TrackStart(t)))
    decreases t
  {
    if t > 1 {
      TrackMapIsZoned(t - 1);
      TrackMapAbuts(t - 1);
    }
  }

  /** A (track, sector) pair as read from a link or a directory entry. */
  type Sector = (byte, byte)

  /** `p` is a sector of the zone layout: tracks 1 to 42 with their sector counts. */
  predicate OnDisk(p: Sector)
  {
    1 <= p.0 <= 42 && p.1 < ZoneSectors(p.0)
  }

  /** Every sector the map knows, whatever the size of the image. */
  function AllSectors(): set<Sector>
  {
    set t: byte, s: byte | 1 <= t <= 42 && s < 21 && OnDisk((t, s)) :: (t, s)
  }

  /** Image offset of a sector of the zone layout. */
  function SectorStart(p: Sector): nat
  {
    TrackStart(p.0) + 256 * p.1
  }

  /** `p` is a sector of the map lying wholly inside an image of `size` bytes. */
  predicate InImage(size: int, p: Sector)
  {
    OnDisk(p) && size >= SectorStart(p) + 256
  }

  /**
   * `getSectorOffset`: the offset of a sector inside the image, or None (the source's -1)
   * when the map has no such track, the track has no such sector, the image is too short
   * for it, or the sector is already in `seen`, the set of sectors visited since the last
   * reset (a circular link). The caller adds the sector to `seen` exactly when an offset
   * is returned.
   */
  function SectorOffset(data: seq<byte>, seen: set<Sector>, p: Sector): (r: Option<nat>)
    ensures r.Some? <==> InImage(|data|, p) && p !in seen
    ensures r.Some? ==> p in AllSectors() && r.value == SectorStart(p) && r.value + 256 <= |data|
  {
    match TrackMap(p.0)
      case None => None
      case Some(t) =>
        TrackMapIsZoned(p.0);
        if t.sectors > p.1 && |data| >= t.offset + 256 * (p.1 + 1) && p !in seen
        then Some(t.offset + 256 * p.1)
        else None
  }

  /** Distinct sectors of the map occupy disjoint 256-byte blocks of the image. */
  lemma SectorsDisjoint(p: Sector, q: Sector)
    requires OnDisk(p) && OnDisk(q) && p != q
    ensures SectorStart(p) + 256 <= SectorStart(q) || SectorStart(q) + 256 <= SectorStart(p)
  {
    if p.0 < q.0 {
      TrackEndsBefore(p.0, q.0);
    } else if q.0 < p.0 {
      TrackEndsBefore(q.0, p.0);
    }
  }

  /** A track ends at or before the start of every later track. */
  lemma {:induction false} TrackEndsBefore(t: int, u: int)
    requires 1 <= t < u
    ensures TrackStart(t) + 256 * ZoneSectors(t) <= TrackStart(u)
    decreases u - t
  {
    if t + 1 < u {
      TrackEndsBefore(t, u - 1);
    }
  }

  /** Visiting a new sector of the map shrinks the set of sectors still unvisited. */
  lemma SeenGrows(seen: set<Sector>, p: Sector)
    requires p in AllSectors() && p !in seen
    ensures |AllSectors() - (seen + {p})| < |AllSectors() - seen|
  {
    assert AllSectors() - seen == (AllSectors() - (seen + {p})) + {p};
  }

  /** The link stored in the first two bytes of a sector: the next track and sector. */
  function Link(data: seq<byte>, o: nat): Sector
    requires o + 2 <= |data|
  {
    (data[o], data[o + 1])
  }

  /** The sectors a link walk visits from `p`, and whether it ended at a track-0 link. */
  datatype Walk = Walk(sectors: seq<Sector>, complete: bool)

  /**
   * The link walk shared by `parseDirectory` and `loadFile`: while the track is not 0,
   * look the sector up (stopping on an error) and follow the link it holds.
   */
  function Chain(data: seq<byte>, p: Sector, seen: set<Sector>): (w: Walk)
    ensures p.0 == 0 ==> w == Walk([], true)
    ensures p.0 != 0 && SectorOffset(data, seen, p).None? ==> w == Walk([], false)
    ensures |w.sectors| > 0 ==> w.sectors[0] == p
    decreases |AllSectors() - seen|
  {
    if p.0 == 0 then Walk([], true)
    else match SectorOffset(data, seen, p)
      case None => Walk([], false)
      case Some(o) =>
        SeenGrows(seen, p);
        var rest := Chain(data, Link(data, o), seen + {p});
        Walk([p] + rest.sectors, rest.complete)
  }

  /** One step of the link walk from a sector the lookup accepts. */
  lemma ChainStep(data: seq<byte>, p: Sector, seen: set<Sector>, o: nat)
    requires p.0 != 0 && SectorOffset(data, seen, p) == Some(o)
    ensures o + 256 <= |data| && InImage(|data|, p) && SectorStart(p) == o
    ensures var rest := Chain(data, Link(data, o), seen + {p});
      Chain(data, p, seen) == Walk([p] + rest.sectors, rest.complete)
  {
  }

  /** Each sector of a walk is a sector of the image not visited before, and each is visited once. */
  lemma {:induction false} ChainVisitsOnce(data: seq<byte>, p: Sector, seen: set<Sector>)
    ensures var ps := Chain(data, p, seen).sectors;
      && (forall i :: 0 <= i < |ps| ==> InImage(|data|, ps[i]) && ps[i] !in seen)
      && (forall i, j :: 0 <= i < j < |ps| ==> ps[i] != ps[j])
    decreases |AllSectors() - seen|
  {
    if p.0 != 0 && SectorOffset(data, seen, p).Some? {
      var o := SectorOffset(data, seen, p).value;
      SeenGrows(seen, p);
      ChainVisitsOnce(data, Link(data, o), seen + {p});
      ChainStep(data, p, seen, o);
      FreshCons(|data|, p, Chain(data, Link(data, o), seen + {p}).sectors, seen);
    }
  }

  /** A new sector in front of a walk of new, distinct sectors keeps the walk new and distinct. */
  lemma FreshCons(size: int, p: Sector, rest: seq<Sector>, seen: set<Sector>)
    requires InImage(size, p) && p !in seen
    requires forall i :: 0 <= i < |rest| ==> InImage(size, rest[i]) && rest[i] !in seen + {p}
    requires forall i, j :: 0 <= i < j < |rest| ==> rest[i] != rest[j]
    ensures var ps := [p] + rest;
      && (forall i :: 0 <= i < |ps| ==> InImage(size, ps[i]) && ps[i] !in seen)
      && (forall i, j :: 0 <= i < j < |ps| ==> ps[i] != ps[j])
  {
    var ps := [p] + rest;
    forall i, j | 0 <= i < j < |ps|
      ensures ps[i] != ps[j]
    {
      assert ps[j] == rest[j - 1];
      if i > 0 {
        assert ps[i] == rest[i - 1];
      }
    }
  }

  /** Each sector's link names the next sector of the walk, and a complete walk ends on a track-0 link. */
  lemma {:induction false} ChainFollowsLinks(data: seq<byte>, p: Sector, seen: set<Sector>)
    ensures var w := Chain(data, p, seen);
      && (forall i :: 0 <= i < |w.sectors| ==> InImage(|data|, w.sectors[i]))
      && (forall i :: 0 <= i < |w.sectors| - 1 ==> Link(data, SectorStart(w.sectors[i])) == w.sectors[i + 1])
      && (w.complete && |w.sectors| > 0 ==> Link(data, SectorStart(w.sectors[|w.sectors| - 1])).0 == 0)
      && (w.complete && |w.sectors| == 0 ==> p.0 == 0)
    decreases |AllSectors() - seen|
  {
    ChainVisitsOnce(data, p, seen);
    if p.0 != 0 && SectorOffset(data, seen, p).Some? {
      var o := SectorOffset(data, seen, p).value;
      SeenGrows(seen, p);
      ChainStep(data, p, seen, o);
      ChainFollowsLinks(data, Link(data, o), seen + {p});
      var w, rest := Chain(data, p, seen), Chain(data, Link(data, o), seen + {p});
      assert w.sectors == [p] + rest.sectors;
      forall i | 0 <= i < |w.sectors| - 1
        ensures Link(data, SectorStart(w.sectors[i])) == w.sectors[i + 1]
      {
        if i > 0 {
          assert w.sectors[i] == rest.sectors[i - 1];
        }
      }
      if w.complete && |rest.sectors| > 0 {
        assert w.sectors[|w.sectors| - 1] == rest.sectors[|rest.sectors| - 1];
      }
    }
  }

  /**
   * The chain walk of `loadFile`: bytes 2 to 255 of every sector in link order (the
   * last sector is copied whole, whatever its link's sector byte says about its fill),
   * or None when a link fails, in which case nothing is loaded.
   */
  function FileWalk(data: seq<byte>, p: Sector, seen: set<Sector>): (r: Option<seq<byte>>)
    decreases |AllSectors() - seen|
  {
    if p.0 == 0 then Some([])
    else match SectorOffset(data, seen, p)
      case None => None
      case Some(o) =>
        SeenGrows(seen, p);
        match FileWalk(data, Link(data, o), seen + {p})
        case None => None
        case Some(rest) => Some(data[o + 2..o + 256] + rest)
  }

  /** One step of the file walk from a sector the lookup accepts. */
  lemma FileStep(data: seq<byte>, p: Sector, seen: set<Sector>, o: nat)
    requires p.0 != 0 && SectorOffset(data, seen, p) == Some(o)
    ensures o + 256 <= |data|
    ensures var tail := FileWalk(data, Link(data, o), seen + {p});
      && (tail.None? ==> FileWalk(data, p, seen).None?)
      && (tail.Some? ==> FileWalk(data, p, seen) == Some(data[o + 2..o + 256] + tail.value))
  {
  }

  /** The file walk succeeds exactly when the link walk is complete, with 254 bytes per sector. */
  lemma {:induction false} FileWalkSucceeds(data: seq<byte>, p: Sector, seen: set<Sector>)
    ensures var w := Chain(data, p, seen);
      && (FileWalk(data, p, seen).Some? <==> w.complete)
      && (w.complete ==> |FileWalk(data, p, seen).value| == 254 * |w.sectors|)
    decreases |AllSectors() - seen|
  {
    if p.0 != 0 {
      match SectorOffset(data, seen, p)
      case None =>
      case Some(o) =>
        SeenGrows(seen, p);
        ChainStep(data, p, seen, o);
        FileStep(data, p, seen, o);
        FileWalkSucceeds(data, Link(data, o), seen + {p});
    }
  }

  /** The 254 bytes a file takes from a sector: all but the link. */
  function Payload(data: seq<byte>, p: Sector): (r: seq<byte>)
    requires InImage(|data|, p)
    ensures |r| == 254
  {
    data[SectorStart(p) + 2..SectorStart(p) + 256]
  }

  /** `bytes` is the payload of every sector of `ps`, the `i`-th one at `254 * i`. */
  predicate Copies(data: seq<byte>, ps: seq<Sector>, bytes: seq<byte>)
  {
    |bytes| == 254 * |ps|
    && forall i :: 0 <= i < |ps| ==>
      InImage(|data|, ps[i]) && bytes[254 * i..254 * i + 254] == Payload(data, ps[i])
  }

  /** Prepending one sector's payload extends a copy by that sector. */
  lemma CopiesCons(data: seq<byte>, p: Sector, ps: seq<Sector>, tail: seq<byte>)
    requires InImage(|data|, p) && Copies(data, ps, tail)
    ensures Copies(data, [p] + ps, Payload(data, p) + tail)
  {
    var qs, bytes := [p] + ps, Payload(data, p) + tail;
    forall i | 0 <= i < |qs|
      ensures InImage(|data|, qs[i]) && bytes[254 * i..254 * i + 254] == Payload(data, qs[i])
    {
      if i > 0 {
        assert qs[i] == ps[i - 1];
        assert bytes[254 * i..254 * i + 254] == tail[254 * (i - 1)..254 * (i - 1) + 254];
      }
    }
  }

  /** A successful file walk holds bytes 2 to 255 of the `i`-th visited sector at `254 * i`. */
  lemma {:induction false} FileWalkReadsChain(data: seq<byte>, p: Sector, seen: set<Sector>)
    requires FileWalk(data, p, seen).Some?
    ensures Copies(data, Chain(data, p, seen).sectors, FileWalk(data, p, seen).value)
    decreases |AllSectors() - seen|
  {
    if p.0 != 0 {
      var o := SectorOffset(data, seen, p).value;
      SeenGrows(seen, p);
      var next := Link(data, o);
      ChainStep(data, p, seen, o);
      FileStep(data, p, seen, o);
      FileWalkReadsChain(data, next, seen + {p});
      FileWalkSucceeds(data, p, seen);
      var rest := Chain(data, next, seen + {p});
      var w, bytes := Chain(data, p, seen), FileWalk(data, p, seen).value;
      var tail := FileWalk(data, next, seen + {p}).value;
      assert bytes == Payload(data, p) + tail;
      CopiesCons(data, p, rest.sectors, tail);
    } else {
      assert Chain(data, p, seen).sectors == [];
    }
  }

  /** The names of `typeMap`; `Unnamed` stands for the empty name of types 5 to 7. */
  datatype FileType = DEL | SEQ | PRG | USR | REL | Unnamed

  /** A directory entry as `parseDirectory` keeps it; `blocks` is the raw block count. */
  datatype Entry = Entry(name: string, kind: FileType, track: byte, sector: byte, blocks: nat)

  /** `typeMap[type] || ''`. */
  function TypeName(fileType: int): (r: FileType)
    ensures r != Unnamed <==> 0 <= fileType < 5
  {
    match fileType
      case 0 => DEL
      case 1 => SEQ
      case 2 => PRG
      case 3 => USR
      case 4 => REL
      case _ => Unnamed
  }

  /** The file type selected for the listing (PRG). */
  const TypeFilter: nat := 2

  /** A byte that can appear in a listed name: printable and not the shifted-space padding. */
  predicate NameByte(b: int)
  {
    b >= 0x20 && b != 0xA0
  }

  /**
   * The name read from bytes `n` up to `l`: reading stops at a 0 byte, and bytes
   * below 0x20 and the 0xA0 padding are skipped.
   */
  function FileName(data: seq<byte>, n: nat, l: nat): (r: string)
    requires l <= |data|
    ensures |r| <= l - n || (n > l && r == "")
    ensures forall k :: 0 <= k < |r| ==> NameByte(r[k] as int)
    decreases l - n
  {
    if n >= l then ""
    else if data[n] == 0 then ""
    else (if NameByte(data[n]) then [data[n] as char] else "") + FileName(data, n + 1, l)
  }

  /** The name is the filtered bytes before the first 0 byte (or before `l`). */
  lemma {:induction false} FileNameFilters(data: seq<byte>, n: nat, l: nat)
    requires n <= l <= |data|
    ensures var m := NulOrEnd(data, n, l);
      FileName(data, n, l) == Printable(data[n..m])
    decreases l - n
  {
    if n < l && data[n] != 0 {
      FileNameFilters(data, n + 1, l);
      assert data[n..NulOrEnd(data, n, l)] == [data[n]] + data[n + 1..NulOrEnd(data, n, l)];
    }
  }

  /** The position of the first 0 byte from `n` on, or `l` when there is none. */
  function NulOrEnd(data: seq<byte>, n: nat, l: nat): (m: nat)
    requires n <= l <= |data|
    ensures n <= m <= l && (m < l ==> data[m] == 0)
    ensures forall k :: n <= k < m ==> data[k] != 0
    decreases l - n
  {
    if n == l || data[n] == 0 then n else NulOrEnd(data, n + 1, l)
  }

  /** The name bytes of `s`, in order, as characters. */
  function Printable(s: seq<byte>): string
  {
    if |s| == 0 then ""
    else (if NameByte(s[0]) then [s[0] as char] else "") + Printable(s[1..])
  }

  /** A directory sector holds eight entry slots of 0x20 bytes (`i` from 0 while below 0xFF). */
  const SlotCount: nat := 8

  /** The image offset of slot `k` of the sector at `o`. */
  function SlotStart(o: nat, k: nat): nat
  {
    o + 0x20 * k
  }

  /** The type bits of slot `k` of the sector at `o`. */
  function SlotType(data: seq<byte>, o: nat, k: nat): int
    requires o + 256 <= |data| && k < SlotCount
  {
    data[SlotStart(o, k) + 2] % 8
  }

  /** Slot `k` ends the sector's listing: no name, type 0 and no blocks. */
  predicate SlotEmpty(data: seq<byte>, o: nat, k: nat)
    requires o + 256 <= |data| && k < SlotCount
  {
    var c := SlotStart(o, k);
    FileName(data, c + 5, c + 21) == "" && SlotType(data, o, k) == 0 && Word(data, c + 0x1E) == 0
  }

  /** The entry slot `k` describes. */
  function SlotEntry(data: seq<byte>, o: nat, k: nat): (e: Entry)
    requires o + 256 <= |data| && k < SlotCount
  {
    var c := SlotStart(o, k);
    Entry(FileName(data, c + 5, c + 21), TypeName(SlotType(data, o, k)), data[c + 3], data[c + 4],
          Word(data, c + 0x1E))
  }

  /**
   * The entries of the sector at `o` from slot `k` on: the slot offset `0x20 * k` runs
   * while below 0xFF, an empty slot ends the sector, and only PRG entries are kept.
   */
  function Slots(data: seq<byte>, o: nat, k: nat): (r: seq<Entry>)
    requires o + 256 <= |data|
    ensures |r| <= SlotCount - k || (k >= SlotCount && r == [])
    ensures forall n :: 0 <= n < |r| ==> r[n].kind == PRG
    decreases SlotCount - k
  {
    if 0x20 * k >= 0xFF || SlotEmpty(data, o, k) then []
    else if SlotType(data, o, k) == TypeFilter then [SlotEntry(data, o, k)] + Slots(data, o, k + 1)
    else Slots(data, o, k + 1)
  }

  /** No slot from `k` to `m` of the sector at `o` is empty. */
  predicate NoEmptySlot(data: seq<byte>, o: nat, k: nat, m: nat)
    requires o + 256 <= |data|
  {
    forall j :: k <= j <= m && j < SlotCount ==> !SlotEmpty(data, o, j)
  }

  /** One slot of the sector listing: a listed entry comes from a slot that is not empty. */
  lemma SlotsStep(data: seq<byte>, o: nat, k: nat)
    requires o + 256 <= |data|
    requires |Slots(data, o, k)| > 0
    ensures k < SlotCount && !SlotEmpty(data, o, k)
    ensures Slots(data, o, k) ==
      (if SlotType(data, o, k) == TypeFilter then [SlotEntry(data, o, k)] else []) + Slots(data, o, k + 1)
  {
  }

  /** The `n`-th listed entry is the entry of a PRG slot `m` reached before any empty slot. */
  lemma {:induction false} SlotsAreListed(data: seq<byte>, o: nat, k: nat, n: nat) returns (m: nat)
    requires o + 256 <= |data|
    requires n < |Slots(data, o, k)|
    ensures k <= m < SlotCount && NoEmptySlot(data, o, k, m)
    ensures SlotType(data, o, m) == TypeFilter && Slots(data, o, k)[n] == SlotEntry(data, o, m)
    decreases SlotCount - k
  {
    SlotsStep(data, o, k);
    var here := if SlotType(data, o, k) == TypeFilter then [SlotEntry(data, o, k)] else [];
    if n < |here| {
      m := k;
    } else {
      m := SlotsAreListed(data, o, k + 1, n - |here|);
      assert Slots(data, o, k)[n] == Slots(data, o, k + 1)[n - |here|];
    }
    NoEmptySlotExtends(data, o, k, m);
  }

  /** A non-empty slot extends a run of non-empty slots after it. */
  lemma NoEmptySlotExtends(data: seq<byte>, o: nat, k: nat, m: nat)
    requires o + 256 <= |data| && k < SlotCount && !SlotEmpty(data, o, k)
    requires k == m || NoEmptySlot(data, o, k + 1, m)
    ensures NoEmptySlot(data, o, k, m)
  {
  }

  /** Conversely, every PRG slot reached before any empty slot is listed. */
  lemma {:induction false} ListedSlotsAreAll(data: seq<byte>, o: nat, k: nat, m: nat)
    requires o + 256 <= |data|
    requires k <= m < SlotCount && NoEmptySlot(data, o, k, m)
    requires SlotType(data, o, m) == TypeFilter
    ensures SlotEntry(data, o, m) in Slots(data, o, k)
    decreases SlotCount - k
  {
    assert !SlotEmpty(data, o, k);
    if k < m {
      ListedSlotsAreAll(data, o, k + 1, m);
    }
  }

  /** The entries of every sector of a link walk, in order. */
  function EntriesOf(data: seq<byte>, ps: seq<Sector>): seq<Entry>
    requires forall i :: 0 <= i < |ps| ==> InImage(|data|, ps[i])
  {
    if |ps| == 0 then []
    else
      assert InImage(|data|, ps[0]);
      Slots(data, SectorStart(ps[0]), 0) + EntriesOf(data, ps[1..])
  }

  /**
   * The directory walk of `parseDirectory`: the entries of each sector in link order;
   * a failing link ends the listing and keeps what was read before it.
   */
  function DirWalk(data: seq<byte>, p: Sector, seen: set<Sector>): (r: seq<Entry>)
    ensures forall k :: 0 <= k < |r| ==> r[k].kind == PRG
    decreases |AllSectors() - seen|
  {
    if p.0 == 0 then []
    else match SectorOffset(data, seen, p)
      case None => []
      case Some(o) =>
        SeenGrows(seen, p);
        Slots(data, o, 0) + DirWalk(data, Link(data, o), seen + {p})
  }

  /** The directory chain starts at track 18, sector 1. */
  const DirectoryStart: Sector := (18, 1)

  /** `parseDirectory`: the PRG entries of the directory chain, with an empty visited set.
      Only PRG entries are listed, and an image too short to hold sector 18/1 lists
      none. */
  function Directory(data: seq<byte>): (r: seq<Entry>)
    ensures forall k :: 0 <= k < |r| ==> r[k].kind == PRG
    ensures |data| < SectorStart(DirectoryStart) + 256 ==> r == []
  {
    DirWalk(data, DirectoryStart, {})
  }

  /** The directory lists the entries of exactly the sectors its link walk visits. */
  lemma {:induction false} DirWalkFollowsChain(data: seq<byte>, p: Sector, seen: set<Sector>)
    ensures var ps := Chain(data, p, seen).sectors;
      && (forall i :: 0 <= i < |ps| ==> InImage(|data|, ps[i]))
      && DirWalk(data, p, seen) == EntriesOf(data, ps)
    decreases |AllSectors() - seen|
  {
    ChainVisitsOnce(data, p, seen);
    if p.0 != 0 {
      match SectorOffset(data, seen, p)
      case None =>
      case Some(o) =>
        SeenGrows(seen, p);
        ChainStep(data, p, seen, o);
        DirWalkFollowsChain(data, Link(data, o), seen + {p});
        var ps := Chain(data, p, seen).sectors;
        assert ps[1..] == Chain(data, Link(data, o), seen + {p}).sectors;
    }
  }

  /** `toUpperCase` on the ASCII letters (the only letters a PET file name holds unshifted). */
  function Upper(s: string): (r: string)
    ensures |r| == |s|
    ensures forall k :: 0 <= k < |s| ==> !('a' <= r[k] <= 'z')
    ensures forall k :: 0 <= k < |s| && !('a' <= s[k] <= 'z') ==> r[k] == s[k]
  {
    if |s| == 0 then ""
    else [if 'a' <= s[0] <= 'z' then (s[0] as int - 32) as char else s[0]] + Upper(s[1..])
  }

  /** How `loadFile` is told which file to load: a name, or an index into the directory. */
  datatype FileRef = Named(name: string) | Numbered(index: int)

  /** The first entry from `k` on whose name is `name`. */
  function FindName(dir: seq<Entry>, name: string, k: nat): (r: Option<nat>)
    ensures r.Some? ==>
              && k <= r.value < |dir| && dir[r.value].name == name
              && forall j :: k <= j < r.value ==> dir[j].name != name
    ensures r.None? ==> forall j :: k <= j < |dir| ==> dir[j].name != name
    decreases |dir| - k
  {
    if k >= |dir| then None
    else if dir[k].name == name then Some(k)
    else FindName(dir, name, k + 1)
  }

  /**
   * The entry `loadFile` picks: the first whose name equals the upper-cased name, or the
   * given index when it is inside the directory; None reports "no such file".
   */
  function Lookup(dir: seq<Entry>, ref: FileRef): (r: Option<nat>)
    ensures r.Some? ==> r.value < |dir|
    ensures ref.Named? && r.Some? ==>
              && dir[r.value].name == Upper(ref.name)
              && forall j :: 0 <= j < r.value ==> dir[j].name != Upper(ref.name)
    ensures ref.Named? ==> (r.None? <==> forall j :: 0 <= j < |dir| ==> dir[j].name != Upper(ref.name))
    ensures ref.Numbered? ==> (r.Some? <==> 0 <= ref.index < |dir|)
    ensures ref.Numbered? && r.Some? ==> r.value == ref.index
  {
    match ref
      case Named(name) => FindName(dir, Upper(name), 0)
      case Numbered(index) => if 0 <= index < |dir| then Some(index) else None
  }

  /**
   * What `loadFile` hands on: no such file, a broken or circular chain (nothing is
   * loaded), a chain with no sector (no load address can be read), or the load address
   * from the first two bytes and the bytes after them.
   */
  datatype LoadResult = NoSuchFile | BrokenChain | NoAddress | Loaded(address: nat, bytes: seq<byte>)

  /**
   * The lookup and chain walk of `loadFile` over the directory `dir` of the last
   * `parseDirectory`, with a fresh visited set.
   */
  function LoadFile(data: seq<byte>, dir: seq<Entry>, ref: FileRef): (r: LoadResult)
    ensures r == NoSuchFile <==> Lookup(dir, ref).None?
    ensures r.Loaded? ==> r.address < 0x10000
  {
    match Lookup(dir, ref)
      case None => NoSuchFile
      case Some(k) =>
        var p := (dir[k].track, dir[k].sector);
        match FileWalk(data, p, {})
          case None => BrokenChain
          case Some(bytes) =>
            if |bytes| < 2 then NoAddress else Loaded(Word(bytes, 0), bytes[2..])
  }

  /** Splitting the load address off a payload of at least two bytes. */
  lemma WordSplit(bytes: seq<byte>)
    requires |bytes| >= 2
    ensures LE16(Word(bytes, 0)) + bytes[2..] == bytes
  {
    LE16Decodes(Word(bytes, 0));
    assert Word(bytes, 0) / 256 == bytes[1];
  }

  /**
   * A found file fails to load exactly when its link walk breaks, and has no load
   * address exactly when its walk visits no sector.
   */
  lemma LoadFileFails(data: seq<byte>, dir: seq<Entry>, ref: FileRef, k: nat)
    requires Lookup(dir, ref) == Some(k)
    ensures var w := Chain(data, (dir[k].track, dir[k].sector), {});
      && (LoadFile(data, dir, ref) == BrokenChain <==> !w.complete)
      && (LoadFile(data, dir, ref) == NoAddress <==> w.complete && |w.sectors| == 0)
  {
    FileWalkSucceeds(data, (dir[k].track, dir[k].sector), {});
  }

  /**
   * A loaded file is its link walk's payloads, the first sector's first two bytes being
   * the load address.
   */
  lemma LoadFileReadsChain(data: seq<byte>, dir: seq<Entry>, ref: FileRef, k: nat)
    requires Lookup(dir, ref) == Some(k) && LoadFile(data, dir, ref).Loaded?
    ensures var w, r := Chain(data, (dir[k].track, dir[k].sector), {}), LoadFile(data, dir, ref);
      |w.sectors| > 0 && Copies(data, w.sectors, LE16(r.address) + r.bytes)
  {
    var p := (dir[k].track, dir[k].sector);
    FileWalkSucceeds(data, p, {});
    FileWalkReadsChain(data, p, {});
    WordSplit(FileWalk(data, p, {}).value);
  }
}
