/**
 The hash of an agent executable, and the settings file embedded at its end: a chunked, masked, trailer-aware
 hash; the reader of the trailer; and the two ways in which the installer writes it.
 */
module FileHash {
  import opened Common

  const GUID: seq<byte> :=
    [0xB9, 0x96, 0x01, 0x58, 0x80, 0x54, 0x4A, 0x19, 0xB7, 0xF7, 0xE9, 0xBE, 0x44, 0x91, 0x4C, 0x19]
  const TRAILER: nat := 20  // a 4-octet length and the GUID
  const WORD: nat := 0x1_0000_0000
  const MAX_FILE: nat := WORD - 256  // so that positions in the headers stay below 2^32
  const ADDRESS: nat := 8  // octets of an address, on a 64-bit platform

  // ----- Numbers in files -----

  function LE16(s: seq<byte>, at: nat): nat
    requires at + 2 <= |s|
  {
    s[at] as nat + 0x100 * s[at + 1] as nat
  }

  function LE32(s: seq<byte>, at: nat): nat
    requires at + 4 <= |s|
  {
    LE16(s, at) + 0x1_0000 * LE16(s, at + 2)
  }

  function BE32(s: seq<byte>, at: nat): nat
    requires at + 4 <= |s|
  {
    0x1_0000 * BE16(s, at) + BE16(s, at + 2)
  }

  function ToBE32(n: nat): (s: seq<byte>)
    requires n < WORD
    ensures |s| == 4 && BE32(s, 0) == n
  {
    var high, low := ToBE16(n / 0x1_0000), ToBE16(n % 0x1_0000);
    assert BE16(high + low, 0) == BE16(high, 0) && BE16(high + low, 2) == BE16(low, 0);
    high + low
  }

  lemma Digits(n: nat)
    ensures n / 0x1_0000 / 0x100 == n / 0x100_0000 && n % 0x1_0000 / 0x100 == n / 0x100 % 0x100
    ensures n % 0x1_0000 % 0x100 == n % 0x100
  {
    var high, low := n / 0x1_0000, n % 0x1_0000;
    var b, a := low / 0x100, low % 0x100;
    assert n == 0x100 * (0x100 * high + b) + a;
    assert n / 0x100 == 0x100 * high + b;
    var d, c := high / 0x100, high % 0x100;
    assert n == 0x100_0000 * d + (0x1_0000 * c + low);
  }

  lemma FromDigits(a: nat, b: nat, c: nat, d: nat)
    requires a < 0x100 && b < 0x100 && c < 0x100 && d < 0x100
    ensures var n := a + 0x100 * b + 0x1_0000 * (c + 0x100 * d);
      n / 0x1_0000 == c + 0x100 * d && n % 0x1_0000 == a + 0x100 * b && n < WORD
    ensures (a + 0x100 * b) % 0x100 == a && (a + 0x100 * b) / 0x100 == b
  {
  }

  /** The four octets written, the high one first. */
  lemma BigEndian(n: nat)
    requires n < WORD
    ensures var s := ToBE32(n);
      && s[0] as int == n / 0x100_0000 && s[1] as int == n / 0x1_0000 % 0x100
      && s[2] as int == n / 0x100 % 0x100 && s[3] as int == n % 0x100
  {
    assert ToBE32(n) == ToBE16(n / 0x1_0000) + ToBE16(n % 0x1_0000);
    Digits(n);
  }

  /** The four octets of a number, the low one first. */
  function ToLE32(n: nat): (s: seq<byte>)
    requires n < WORD
    ensures |s| == 4
  {
    [(n % 0x100) as byte, (n / 0x100 % 0x100) as byte, (n / 0x1_0000 % 0x100) as byte, (n / 0x100_0000) as byte]
  }

  function ToLE16(n: nat): (s: seq<byte>)
    requires n < 0x1_0000
    ensures |s| == 2
  {
    [(n % 0x100) as byte, (n / 0x100) as byte]
  }

  /** A field of a file in which those octets stand has that number. */
  lemma LittleEndian(s: seq<byte>, at: nat, n: nat)
    requires at + 4 <= |s| && n < WORD && s[at..at + 4] == ToLE32(n)
    ensures LE32(s, at) == n
  {
    var t := ToLE32(n);
    assert s[at] == t[0] && s[at + 1] == t[1] && s[at + 2] == t[2] && s[at + 3] == t[3];
    Digits(n);
    assert LE16(s, at) == n % 0x1_0000 && LE16(s, at + 2) == n / 0x1_0000;
  }

  lemma LittleEndian16(s: seq<byte>, at: nat, n: nat)
    requires at + 2 <= |s| && n < 0x1_0000 && s[at..at + 2] == ToLE16(n)
    ensures LE16(s, at) == n
  {
    assert s[at] == s[at..at + 2][0] && s[at + 1] == s[at..at + 2][1];
  }

  // ----- Specification of the hash -----

  /** How a file is laid out: as a Windows executable that the agent understands, or not, or as plain octets. */
  datatype Layout = Plain | Rejected | Executable(checksum: nat, directory: nat, signature: nat)

  /** A buffer after reading into it from position `at`: what the file no longer has stays as it was. */
  function Overlay(data: seq<byte>, at: nat, under: seq<byte>): (r: seq<byte>)
    ensures |r| == |under|
    ensures forall i :: 0 <= i < |r| ==> r[i] == if at + i < |data| then data[at + i] else under[i]
  {
    seq(|under|, i requires 0 <= i < |under| => if at + i < |data| then data[at + i] else under[i])
  }

  /** The general buffer after the first two octets of the file are read into it. */
  function First(data: seq<byte>, stale: seq<byte>): (r: seq<byte>)
    requires |stale| >= 2
    ensures |r| == |stale|
  {
    Overlay(data, 0, stale[..2]) + stale[2..]
  }

  predicate IsMz(data: seq<byte>, stale: seq<byte>)
    requires |stale| >= 2
  {
    First(data, stale)[0] == 0x4D && First(data, stale)[1] == 0x5A
  }

  function NtHeader(data: seq<byte>): nat { LE32(Overlay(data, 60, Zeros(4)), 0) }

  /** The agent's stack buffers are zeroed, and their sizes rounded up to whole addresses. */
  function RoundUp(n: nat): nat { (n + ADDRESS - 1) / ADDRESS * ADDRESS }

  /** The layout that an optional header gives, which follows the headers at `nt`. */
  function ParseOptional(opt: seq<byte>, nt: nat): Layout {
    if |opt| > 4 && LE16(opt, 0) == 0x10B && |opt| >= 132 then
      Executable(nt + 24 + 64, nt + 24 + 128, LE32(opt, 128))
    else if |opt| > 4 && LE16(opt, 0) == 0x20B && |opt| >= 148 then
      Executable(nt + 24 + 64, nt + 24 + 144, LE32(opt, 144))
    else Rejected
  }

  /** `stale` is what the general buffer held before; a file with little in it lets it through. */
  function Parse(data: seq<byte>, win32: bool, stale: seq<byte>): Layout
    requires |stale| >= 24
  {
    if !win32 || !IsMz(data, stale) then Plain
    else
      var nt := NtHeader(data);
      var header := Overlay(data, nt, First(data, stale)[..24]);
      if LE32(header, 0) != 17744 then Rejected
      else ParseOptional(Overlay(data, nt + 24, Zeros(RoundUp(LE16(header, 20)))), nt)
  }

  /** The octets compared with the GUID: the last 16, or, of a shorter file, those from `pos` on. */
  function Window(data: seq<byte>, pos: nat, under: seq<byte>): seq<byte>
    requires |under| >= 16
  {
    if |data| >= 16 then data[|data| - 16..] else Overlay(data, pos, under[..16])
  }

  /** Looking for headers reads two octets first. */
  function Tail(data: seq<byte>, win32: bool, stale: seq<byte>): seq<byte>
    requires |stale| >= 16
  {
    if win32 then Window(data, 2, First(data, stale)) else Window(data, 0, stale)
  }

  /** Where the trailer says that the executable ends, in 32-bit arithmetic. */
  function TrailerCut(data: seq<byte>, window: seq<byte>): nat {
    if window != GUID then |data| % WORD
    else if |data| >= TRAILER then (|data| - TRAILER - BE32(data, |data| - TRAILER)) % WORD
    else (|data| - 4) % WORD
  }

  function EndIndex(data: seq<byte>, layout: Layout, window: seq<byte>): nat {
    if layout.Executable? && layout.signature != 0 then layout.signature else TrailerCut(data, window)
  }

  /** How much of a file of `n` octets is read as headers. */
  function HeaderEnd(layout: Layout, n: nat): nat {
    if !layout.Executable? then 0 else if layout.directory + 8 <= n then layout.directory + 8 else n
  }

  /** How many octets are hashed: an end of 0, or one inside the headers, stands for the end of the file. */
  function Limit(n: nat, layout: Layout, endIndex: nat): nat {
    if endIndex == 0 || endIndex < HeaderEnd(layout, n) || endIndex > n then n else endIndex
  }

  /** The checksum, and the last 8 octets of the headers: the signature's directory entry, if the file has it. */
  predicate Masked(layout: Layout, n: nat, i: int) {
    layout.Executable?
    && (layout.checksum <= i < layout.checksum + 4 || HeaderEnd(layout, n) - 8 <= i < HeaderEnd(layout, n))
  }

  /** The file with those zeroed. */
  function Mask(data: seq<byte>, layout: Layout): (r: seq<byte>)
    ensures |r| == |data|
    ensures forall i :: 0 <= i < |data| ==> r[i] == if Masked(layout, |data|, i) then 0 else data[i]
  {
    seq(|data|, i requires 0 <= i < |data| => if Masked(layout, |data|, i) then 0 else data[i])
  }

  function Hashed(data: seq<byte>, layout: Layout, window: seq<byte>): seq<byte> {
    Mask(data, layout)[..Limit(|data|, layout, EndIndex(data, layout, window))]
  }

  /** The octets given to SHA-384, or None when the file is refused. */
  function Digested(data: seq<byte>, win32: bool, stale: seq<byte>): Option<seq<byte>>
    requires |stale| >= 24
  {
    var layout := Parse(data, win32, stale);
    if layout.Rejected? then None else Some(Hashed(data, layout, Tail(data, win32, stale)))
  }

  /** The headers fit the agent's buffer, and the file goes on past the checksum: else it writes outside that. */
  predicate Addressable(layout: Layout, n: nat, buffer: nat) {
    layout.Executable? ==>
      && layout.checksum + 4 <= buffer && layout.directory + 4 - layout.checksum <= buffer
      && layout.checksum + 12 <= n
  }

  // ----- Embedding settings -----

  /** Appending settings to an unsigned executable. */
  function Embed(base: seq<byte>, m: seq<byte>): seq<byte>
    requires |m| < WORD
  {
    base + m + ToBE32(|m|) + GUID
  }

  /**
   Adding settings to a signed executable: they are padded into the signature's area, whose size is
   rewritten in the directory entry at `table` and at its start.
   */
  function EmbedSigned(base: seq<byte>, table: nat, start: nat, size: seq<byte>, inner: seq<byte>,
                       padding: seq<byte>, m: seq<byte>): seq<byte>
    requires |m| < WORD && |size| == 4 && |inner| == 4 && table + 8 <= start && start + 4 <= |base|
  {
    base[..table + 4] + size + base[table + 8..start] + inner + base[start + 4..] + padding + m + ToBE32(|m|) + GUID
  }

  predicate HasTrailer(data: seq<byte>) { |data| >= 16 && data[|data| - 16..] == GUID }

  lemma SameBE32(s: seq<byte>, at: nat, word: seq<byte>)
    requires at + 4 <= |s| && s[at..at + 4] == word
    ensures BE32(s, at) == BE32(word, 0)
  {
    assert s[at] == word[0] && s[at + 1] == word[1] && s[at + 2] == word[2] && s[at + 3] == word[3];
  }

  lemma EmbedSlices(rest: seq<byte>, m: seq<byte>, length: seq<byte>)
    requires |length| == 4
    ensures var file := rest + m + length + GUID;
      && |file| == |rest| + |m| + TRAILER && file[|file| - 16..] == GUID
      && file[|file| - TRAILER..|file| - TRAILER + 4] == length
      && file[|rest|..|rest| + |m|] == m && file[..|rest|] == rest
  {
    var body := rest + m + length;
    assert (body + GUID)[..|body|] == body;
  }

  lemma TrailerOfEmbed(rest: seq<byte>, m: seq<byte>)
    requires |m| < WORD
    ensures var file := rest + m + ToBE32(|m|) + GUID;
      && |file| == |rest| + |m| + TRAILER && HasTrailer(file) && BE32(file, |file| - TRAILER) == |m|
      && TrailerCut(file, GUID) == |rest| % WORD
      && file[|rest|..|rest| + |m|] == m && file[..|rest|] == rest
  {
    var length := ToBE32(|m|);
    var file := rest + m + length + GUID;
    EmbedSlices(rest, m, length);
    SameBE32(file, |file| - TRAILER, length);
    assert |file| - TRAILER - |m| == |rest|;
  }

  /** The headers that a Windows executable claims to have lie inside it. */
  predicate Intact(data: seq<byte>) {
    && |data| >= 2
    && (data[0] == 0x4D && data[1] == 0x5A ==>
          && 64 <= |data|
          && LE32(data, 60) + 24 <= |data|
          && (LE32(data, LE32(data, 60)) == 17744 ==>
                LE32(data, 60) + 24 + RoundUp(LE16(data, LE32(data, 60) + 20)) <= |data|))
  }

  lemma OverlayInside(data: seq<byte>, at: nat, under: seq<byte>)
    requires at + |under| <= |data|
    ensures Overlay(data, at, under) == data[at..at + |under|]
  {
  }

  lemma LE32Inside(data: seq<byte>, at: nat, n: nat, k: nat)
    requires k + 4 <= n && at + n <= |data|
    ensures LE32(data[at..at + n], k) == LE32(data, at + k) && LE16(data[at..at + n], k) == LE16(data, at + k)
  {
  }

  /** Of intact headers nothing old shows: they are read as they are in the file. */
  function ParseWhole(data: seq<byte>): Layout
    requires Intact(data)
  {
    if !(data[0] == 0x4D && data[1] == 0x5A) then Plain
    else
      var nt := LE32(data, 60);
      if LE32(data, nt) != 17744 then Rejected
      else ParseOptional(data[nt + 24..nt + 24 + RoundUp(LE16(data, nt + 20))], nt)
  }

  lemma ParseIntact(data: seq<byte>, stale: seq<byte>)
    requires Intact(data) && |stale| >= 24
    ensures Parse(data, true, stale) == ParseWhole(data)
  {
    if data[0] == 0x4D && data[1] == 0x5A {
      OverlayInside(data, 60, Zeros(4));
      LE32Inside(data, 60, 4, 0);
      var nt := LE32(data, 60);
      OverlayInside(data, nt, First(data, stale)[..24]);
      LE32Inside(data, nt, 24, 0);
      LE32Inside(data, nt, 24, 20);
      if LE32(data, nt) == 17744 { OverlayInside(data, nt + 24, Zeros(RoundUp(LE16(data, nt + 20)))); }
    }
  }

  lemma RoundUpIsMultiple(n: nat)
    ensures RoundUp(n) % ADDRESS == 0 && n <= RoundUp(n) < n + ADDRESS
  {
  }

  /** The signature's directory entry lies inside intact headers, because their size is a multiple of 8. */
  lemma EntryInside(data: seq<byte>)
    requires Intact(data) && ParseWhole(data).Executable?
    ensures var p := ParseWhole(data);
      p.directory + 8 <= LE32(data, 60) + 24 + RoundUp(LE16(data, LE32(data, 60) + 20)) <= |data|
      && HeaderEnd(p, |data|) == p.directory + 8 && p.checksum + 12 <= p.directory && p.checksum == LE32(data, 60) + 88
  {
    RoundUpIsMultiple(LE16(data, LE32(data, 60) + 20));
  }

  lemma SamePrefix(a: seq<byte>, b: seq<byte>, n: nat, at: nat)
    requires n <= |a| && n <= |b| && at + 4 <= n && forall i :: 0 <= i < n ==> b[i] == a[i]
    ensures LE32(b, at) == LE32(a, at) && LE16(b, at) == LE16(a, at)
  {
  }

  /** The same layout is seen in a file that starts like an intact one. */
  lemma ParseOfExtension(base: seq<byte>, file: seq<byte>)
    requires Intact(base) && base <= file
    ensures Intact(file) && ParseWhole(file) == ParseWhole(base)
  {
    assert forall i :: 0 <= i < |base| ==> file[i] == base[i];
    if base[0] == 0x4D && base[1] == 0x5A {
      var nt := LE32(base, 60);
      SamePrefix(base, file, |base|, 60);
      SamePrefix(base, file, |base|, nt);
      SamePrefix(base, file, |base|, nt + 20);
      if LE32(base, nt) == 17744 {
        var end := nt + 24 + RoundUp(LE16(base, nt + 20));
        assert file[nt + 24..end] == base[nt + 24..end];
      }
    }
  }

  lemma MaskOfAgreeing(base: seq<byte>, file: seq<byte>, layout: Layout, n: nat)
    requires n <= |base| && n <= |file| && HeaderEnd(layout, |base|) == HeaderEnd(layout, |file|)
    requires forall i :: 0 <= i < n && !Masked(layout, |base|, i) ==> file[i] == base[i]
    ensures Mask(file, layout)[..n] == Mask(base, layout)[..n]
  {
  }

  /** An executable without signature, and with intact headers if the agent looks for them. */
  predicate Unsigned(base: seq<byte>, win32: bool) {
    win32 ==>
      && Intact(base) && !ParseWhole(base).Rejected?
      && (ParseWhole(base).Executable? ==> ParseWhole(base).signature == 0)
  }

  function LayoutOf(base: seq<byte>, win32: bool): Layout
    requires win32 ==> Intact(base)
  {
    if win32 then ParseWhole(base) else Plain
  }

  /** What is hashed of an executable with settings appended: the executable, unless it is empty. */
  lemma HashedOfEmbed(base: seq<byte>, m: seq<byte>, layout: Layout)
    requires |base| + |m| + TRAILER < WORD
    requires layout.Executable? ==> layout.signature == 0 && layout.directory + 8 <= |base|
    ensures base != [] ==> Hashed(Embed(base, m), layout, GUID) == Mask(base, layout)
    ensures base == [] ==> Hashed(Embed(base, m), layout, GUID) == Embed(base, m)
  {
    var file := Embed(base, m);
    TrailerOfEmbed(base, m);
    assert EndIndex(file, layout, GUID) == |base|;
    assert forall i :: 0 <= i < |base| ==> file[i] == file[..|base|][i];
    MaskOfAgreeing(base, file, layout, |base|);
    assert Mask(base, layout)[..|base|] == Mask(base, layout);
    if base == [] { assert Mask(file, layout)[..|file|] == file; }
  }

  lemma DigestedOfEmbed(base: seq<byte>, m: seq<byte>, win32: bool, stale: seq<byte>)
    requires |base| + |m| + TRAILER < WORD && |stale| >= 24 && Unsigned(base, win32)
    ensures Digested(Embed(base, m), win32, stale) ==
            Some(if base == [] then Embed(base, m) else Mask(base, LayoutOf(base, win32)))
  {
    var file, layout := Embed(base, m), LayoutOf(base, win32);
    TrailerOfEmbed(base, m);
    if win32 {
      assert base <= file;
      ParseOfExtension(base, file);
      ParseIntact(file, stale);
      if layout.Executable? { EntryInside(base); }
    }
    assert Tail(file, win32, stale) == GUID;
    HashedOfEmbed(base, m, layout);
  }

  /**
   A trailer with this length makes the agent hash less than the whole file: the end it gives lies before the
   end of the file, after the headers, and is not 0. Lengths near 2^32 wrap round.
   */
  predicate CutBy(size: nat, headerEnd: nat, length: nat) {
    || (length + TRAILER < size && headerEnd + TRAILER + length <= size)
    || (length > WORD - TRAILER && headerEnd + TRAILER + length <= size + WORD)
  }

  /** The file ends in the GUID, as far as the agent can tell, and less than all of it is hashed. */
  predicate CutShort(data: seq<byte>, headerEnd: nat, window: seq<byte>) {
    window == GUID && if |data| >= TRAILER then CutBy(|data|, headerEnd, BE32(data, |data| - TRAILER)) else |data| > 4
  }

  lemma LimitIsWholeIff(data: seq<byte>, layout: Layout, window: seq<byte>)
    requires |data| < WORD && (layout.Executable? ==> |data| >= TRAILER)
    ensures Limit(|data|, layout, TrailerCut(data, window)) == |data| <==>
            !CutShort(data, HeaderEnd(layout, |data|), window)
  {
  }

  /**
   Embedding settings in an unsigned executable does not change what is hashed exactly when there is an
   executable, and it has no trailer already that cuts it short. (Of an empty one the whole file is hashed.)
   */
  lemma EmbeddingIsInvisibleIff(base: seq<byte>, m: seq<byte>, win32: bool, stale: seq<byte>)
    requires |base| + |m| + TRAILER < WORD && |stale| >= 24 && Unsigned(base, win32)
    ensures Digested(Embed(base, m), win32, stale) == Digested(base, win32, stale) <==>
            base != [] && !CutShort(base, HeaderEnd(LayoutOf(base, win32), |base|), Tail(base, win32, stale))
  {
    DigestedOfEmbed(base, m, win32, stale);
    var layout, window := LayoutOf(base, win32), Tail(base, win32, stale);
    if win32 { ParseIntact(base, stale); }
    if layout.Executable? { EntryInside(base); }
    LimitIsWholeIff(base, layout, window);
    var cut, masked := Limit(|base|, layout, TrailerCut(base, window)), Mask(base, layout);
    var plain := Digested(base, win32, stale);
    assert plain == Some(masked[..cut]);
    if base == [] {
      assert |plain.value| == 0 && |Embed(base, m)| > 0;
    } else if cut == |base| {
      assert masked[..cut] == masked;
    } else {
      assert |plain.value| == cut < |masked|;
    }
  }

  /** So embedding twice shows: the first settings are hashed with the second, and not without. */
  lemma EmbeddingTwiceShows(base: seq<byte>, m: seq<byte>, more: seq<byte>, stale: seq<byte>)
    requires base != [] && |base| + |m| + |more| + 2 * TRAILER < WORD && |stale| >= 24
    ensures Digested(Embed(base, m), false, stale) == Some(base)
    ensures Digested(Embed(Embed(base, m), more), false, stale) == Some(Embed(base, m))
  {
    DigestedOfEmbed(base, m, false, stale);
    DigestedOfEmbed(Embed(base, m), more, false, stale);
    assert Mask(base, Plain) == base && Mask(Embed(base, m), Plain) == Embed(base, m);
  }

  /** But settings with no executable before them have a trailer that gives the end 0, and cuts nothing. */
  lemma SettingsAloneAreWhole(m: seq<byte>, more: seq<byte>, stale: seq<byte>)
    requires |m| + |more| + 2 * TRAILER < WORD && |stale| >= 24
    ensures HasTrailer(Embed([], m))
    ensures Digested(Embed(Embed([], m), more), false, stale) == Digested(Embed([], m), false, stale)
  {
    DigestedOfEmbed([], m, false, stale);
    DigestedOfEmbed(Embed([], m), more, false, stale);
    TrailerOfEmbed([], m);
    assert Mask(Embed([], m), Plain) == Embed([], m);
  }

  /** A file without a trailer, and long enough to tell, is hashed whole. */
  lemma NoTrailerNoCut(data: seq<byte>, win32: bool, stale: seq<byte>)
    requires 16 <= |data| < WORD && |stale| >= 24 && !HasTrailer(data) && Unsigned(data, win32)
    ensures Digested(data, win32, stale) == Some(Mask(data, LayoutOf(data, win32)))
  {
    var layout := LayoutOf(data, win32);
    if win32 { ParseIntact(data, stale); }
    assert Tail(data, win32, stale) != GUID;
    assert Mask(data, layout)[..|data|] == Mask(data, layout);
  }

  /** An intact executable with a signature that starts after the headers. */
  predicate Signed(base: seq<byte>) {
    && Intact(base) && ParseWhole(base).Executable?
    && var p, nt := ParseWhole(base), LE32(base, 60);
      64 <= nt && nt + 24 + RoundUp(LE16(base, nt + 20)) <= p.signature && p.signature + 4 <= |base|
  }

  lemma EntryBeforeSignature(base: seq<byte>)
    requires Signed(base)
    ensures var p := ParseWhole(base);
      152 <= p.checksum < p.directory + 8 <= p.signature && p.signature + 4 <= |base|
  {
    EntryInside(base);
  }

  /** What is hashed of a signed executable is what comes before its signature. */
  lemma DigestedOfSigned(base: seq<byte>, stale: seq<byte>)
    requires |stale| >= 24 && Signed(base)
    ensures var p := ParseWhole(base);
      p.signature <= |base| && Digested(base, true, stale) == Some(Mask(base, p)[..p.signature])
  {
    ParseIntact(base, stale);
    EntryInside(base);
  }

  // ----- Executables by their octets -----

  /** What is written at a place in a file. */
  predicate Has(file: seq<byte>, at: nat, octets: seq<byte>) {
    at + |octets| <= |file| && file[at..at + |octets|] == octets
  }

  /** Where the entry of the signature starts: the fifth directory of 8 octets, after the 32-bit or 64-bit fields. */
  function EntryAt(nt: nat, wide: bool): nat { nt + 24 + (if wide then 112 else 96) + 4 * 8 }

  /**
   A Windows executable of 32 or 64 bits as its format prescribes: the marks MZ and PE with two zeros, the offset of
   the headers, the size of the optional header and its magic number, and `v` as the offset of the signature.
   */
  predicate IsImage(file: seq<byte>, nt: nat, size: nat, wide: bool, v: nat) {
    && nt < WORD && size < 0x1_0000 && v < WORD
    && 64 <= |file| && nt + 24 + RoundUp(size) <= |file| && EntryAt(nt, wide) + 4 <= nt + 24 + RoundUp(size)
    && Has(file, 0, [0x4D, 0x5A]) && Has(file, 60, ToLE32(nt))
    && Has(file, nt, [0x50, 0x45, 0, 0]) && Has(file, nt + 20, ToLE16(size))
    && Has(file, nt + 24, [0x0B, if wide then 2 else 1])
    && Has(file, EntryAt(nt, wide), ToLE32(v))
  }

  lemma PartOfPart(file: seq<byte>, start: nat, end: nat, at: nat, octets: seq<byte>)
    requires start <= end <= |file| && start <= at && at + |octets| <= end && Has(file, at, octets)
    ensures file[start..end][at - start..at - start + |octets|] == octets
  {
    var n := at - start;
    var part := file[start..end][n..n + |octets|];
    assert forall i :: 0 <= i < |octets| ==> part[i] == file[at + i] == file[at..at + |octets|][i];
  }

  lemma LayoutOfOptional(file: seq<byte>, nt: nat, size: nat, wide: bool, v: nat)
    requires IsImage(file, nt, size, wide, v)
    ensures ParseOptional(file[nt + 24..nt + 24 + RoundUp(size)], nt) == Executable(nt + 88, EntryAt(nt, wide), v)
  {
    var end := nt + 24 + RoundUp(size);
    var opt, at := file[nt + 24..end], EntryAt(nt, wide);
    var magic: seq<byte> := [0x0B, if wide then 2 else 1];
    PartOfPart(file, nt + 24, end, nt + 24, magic);
    assert opt[0] == opt[..2][0] == magic[0] && opt[1] == opt[..2][1] == magic[1];
    PartOfPart(file, nt + 24, end, at, ToLE32(v));
    LittleEndian(opt, at - nt - 24, v);
  }

  lemma HeadersOfImage(file: seq<byte>, nt: nat, size: nat, wide: bool, v: nat)
    requires IsImage(file, nt, size, wide, v)
    ensures LE32(file, 60) == nt && LE16(file, nt + 20) == size && LE32(file, nt) == 17744
    ensures file[0] == 0x4D && file[1] == 0x5A
  {
    LittleEndian(file, 60, nt);
    LittleEndian16(file, nt + 20, size);
    assert ToLE32(17744) == [0x50, 0x45, 0, 0];
    LittleEndian(file, nt, 17744);
    assert file[0] == file[0..2][0] && file[1] == file[0..2][1];
  }

  /** Such a file is seen as what it is: its checksum, the signature's entry, and the signature are found. */
  lemma LayoutOfImage(file: seq<byte>, nt: nat, size: nat, wide: bool, v: nat)
    requires IsImage(file, nt, size, wide, v)
    ensures Intact(file) && LE32(file, 60) == nt && LE16(file, nt + 20) == size
    ensures ParseWhole(file) == Executable(nt + 88, EntryAt(nt, wide), v)
  {
    HeadersOfImage(file, nt, size, wide, v);
    LayoutOfOptional(file, nt, size, wide, v);
  }

  lemma LE32Octets(s: seq<byte>, at: nat)
    requires at + 4 <= |s|
    ensures LE32(s, at) < WORD && ToLE32(LE32(s, at)) == s[at..at + 4]
  {
    var n := LE32(s, at);
    FromDigits(s[at] as nat, s[at + 1] as nat, s[at + 2] as nat, s[at + 3] as nat);
    FromDigits(s[at + 2] as nat, s[at + 3] as nat, 0, 0);
    assert n % 0x1_0000 == LE16(s, at) && n / 0x1_0000 == LE16(s, at + 2);
    Digits(n);
  }

  lemma LE16Octets(s: seq<byte>, at: nat)
    requires at + 2 <= |s|
    ensures LE16(s, at) < 0x1_0000 && ToLE16(LE16(s, at)) == s[at..at + 2]
  {
  }

  lemma FieldsOfOptional(opt: seq<byte>, nt: nat)
    requires ParseOptional(opt, nt).Executable?
    ensures var wide := LE16(opt, 0) == 0x20B;
      var at := EntryAt(nt, wide) - nt - 24;
      && at + 4 <= |opt| && ParseOptional(opt, nt).signature == LE32(opt, at)
      && opt[..2] == [0x0B, if wide then 2 else 1]
  {
    LE16Octets(opt, 0);
    assert ToLE16(0x10B) == [0x0B, 1] && ToLE16(0x20B) == [0x0B, 2];
  }

  lemma OptionalOfImage(file: seq<byte>, nt: nat, size: nat)
    requires nt + 24 + RoundUp(size) <= |file|
    requires ParseOptional(file[nt + 24..nt + 24 + RoundUp(size)], nt).Executable?
    ensures var v := ParseOptional(file[nt + 24..nt + 24 + RoundUp(size)], nt).signature;
      var wide := LE16(file, nt + 24) == 0x20B;
      && v < WORD && EntryAt(nt, wide) + 4 <= nt + 24 + RoundUp(size)
      && Has(file, nt + 24, [0x0B, if wide then 2 else 1]) && Has(file, EntryAt(nt, wide), ToLE32(v))
  {
    var n := RoundUp(size);
    var opt := file[nt + 24..nt + 24 + n];
    FieldsOfOptional(opt, nt);
    LE32Inside(file, nt + 24, n, 0);
    assert file[nt + 24..nt + 26] == opt[..2];
    var at := EntryAt(nt, LE16(opt, 0) == 0x20B);
    LE32Inside(file, nt + 24, n, at - nt - 24);
    LE32Octets(file, at);
  }

  lemma OnlyHeadersOfImage(file: seq<byte>)
    requires Intact(file) && ParseWhole(file).Executable?
    ensures var nt := LE32(file, 60);
      && 64 <= |file| && nt + 24 + RoundUp(LE16(file, nt + 20)) <= |file|
      && nt < WORD && LE16(file, nt + 20) < 0x1_0000 && Has(file, 0, [0x4D, 0x5A]) && Has(file, 60, ToLE32(nt))
      && Has(file, nt, [0x50, 0x45, 0, 0]) && Has(file, nt + 20, ToLE16(LE16(file, nt + 20)))
  {
    var nt := LE32(file, 60);
    LE32Octets(file, 60);
    LE32Octets(file, nt);
    assert ToLE32(17744) == [0x50, 0x45, 0, 0];
    LE16Octets(file, nt + 20);
    assert file[0..2] == [0x4D, 0x5A];
  }

  /** And nothing else is seen as one. */
  lemma OnlyImagesAreExecutable(file: seq<byte>)
    requires Intact(file) && ParseWhole(file).Executable?
    ensures var nt := LE32(file, 60);
      IsImage(file, nt, LE16(file, nt + 20), LE16(file, nt + 24) == 0x20B, ParseWhole(file).signature)
  {
    var nt := LE32(file, 60);
    OnlyHeadersOfImage(file);
    OptionalOfImage(file, nt, LE16(file, nt + 20));
  }

  /** The octets of an executable up to `n`, with its checksum and the entry of its signature zeroed. */
  predicate IsMaskedImage(r: seq<byte>, file: seq<byte>, nt: nat, wide: bool, n: nat)
    requires n <= |file|
  {
    && |r| == n
    && forall i :: 0 <= i < n ==>
      r[i] == if nt + 88 <= i < nt + 92 || EntryAt(nt, wide) <= i < EntryAt(nt, wide) + 8 then 0 else file[i]
  }

  lemma MaskOfImage(file: seq<byte>, nt: nat, size: nat, wide: bool, v: nat, n: nat)
    requires IsImage(file, nt, size, wide, v) && n <= |file|
    ensures IsMaskedImage(Mask(file, Executable(nt + 88, EntryAt(nt, wide), v))[..n], file, nt, wide, n)
  {
  }

  /** Of a signed executable, what comes before the offset that its directory gives is hashed, and no more. */
  lemma DigestedOfSignedImage(file: seq<byte>, nt: nat, size: nat, wide: bool, v: nat, stale: seq<byte>)
    requires |stale| >= 24 && IsImage(file, nt, size, wide, v)
    requires 64 <= nt && nt + 24 + RoundUp(size) <= v && v + 4 <= |file|
    ensures Signed(file) && Digested(file, true, stale).Some?
    ensures IsMaskedImage(Digested(file, true, stale).value, file, nt, wide, v)
  {
    LayoutOfImage(file, nt, size, wide, v);
    DigestedOfSigned(file, stale);
    MaskOfImage(file, nt, size, wide, v, v);
  }

  /** Of an unsigned one all of it is hashed, with settings appended, or with no trailer at its end. */
  lemma DigestedOfUnsignedImage(file: seq<byte>, nt: nat, size: nat, wide: bool, m: seq<byte>, stale: seq<byte>)
    requires |stale| >= 24 && IsImage(file, nt, size, wide, 0) && |file| + |m| + TRAILER < WORD
    ensures Unsigned(file, true) && Digested(Embed(file, m), true, stale).Some?
    ensures IsMaskedImage(Digested(Embed(file, m), true, stale).value, file, nt, wide, |file|)
    ensures !HasTrailer(file) ==> Digested(file, true, stale) == Digested(Embed(file, m), true, stale)
  {
    LayoutOfImage(file, nt, size, wide, 0);
    DigestedOfEmbed(file, m, true, stale);
    MaskOfImage(file, nt, size, wide, 0, |file|);
    assert Mask(file, ParseWhole(file))[..|file|] == Mask(file, ParseWhole(file));
    if !HasTrailer(file) { NoTrailerNoCut(file, true, stale); }
  }

  /** Embedding settings in the signature of a signed executable does not change what is hashed. */
  lemma SignedEmbeddingIsInvisible(base: seq<byte>, size: seq<byte>, inner: seq<byte>, padding: seq<byte>,
                                   m: seq<byte>, stale: seq<byte>)
    requires |base| + |padding| + |m| + TRAILER < WORD && |stale| >= 24 && |size| == 4 && |inner| == 4
    requires Signed(base)
    ensures var p := ParseWhole(base);
      && p.directory + 8 <= p.signature && p.signature + 4 <= |base|
      && var file := EmbedSigned(base, p.directory, p.signature, size, inner, padding, m);
        Signed(file) && Digested(file, true, stale) == Digested(base, true, stale)
  {
    var p := ParseWhole(base);
    EntryBeforeSignature(base);
    var file := EmbedSigned(base, p.directory, p.signature, size, inner, padding, m);
    AgreesBeforeSignature(base, p.directory, p.signature, size, inner, padding, m);
    ParseOfAgreeing(base, file);
    DigestedOfSigned(base, stale);
    DigestedOfSigned(file, stale);
    EntryInside(base);
    EntryInside(file);
    MaskOfAgreeing(base, file, p, p.signature);
  }

  lemma SameHeaders(base: seq<byte>, file: seq<byte>, n: nat)
    requires Intact(base) && ParseWhole(base).Executable? && n <= |base| <= |file|
    requires LE32(base, 60) + 24 <= n && 64 <= n && base[..n] == file[..n]
    ensures file[0] == base[0] && file[1] == base[1] && LE32(file, 60) == LE32(base, 60)
    ensures var nt := LE32(base, 60);
      LE32(file, nt) == LE32(base, nt) && LE16(file, nt + 20) == LE16(base, nt + 20)
  {
    assert forall i :: 0 <= i < n ==> file[i] == file[..n][i] == base[i];
    SamePrefix(base, file, n, 60);
    SamePrefix(base, file, n, LE32(base, 60));
    SamePrefix(base, file, n, LE32(base, 60) + 20);
  }

  lemma SameLayout(base: seq<byte>, file: seq<byte>, nt: nat, end: nat)
    requires Intact(base) && ParseWhole(base).Executable? && |base| <= |file|
    requires nt == LE32(base, 60) == LE32(file, 60) && end == nt + 24 + RoundUp(LE16(base, nt + 20))
    requires file[0] == base[0] && file[1] == base[1]
    requires LE32(file, nt) == LE32(base, nt) && LE16(file, nt + 20) == LE16(base, nt + 20)
    requires ParseOptional(file[nt + 24..end], nt) == ParseOptional(base[nt + 24..end], nt)
    ensures Intact(file) && ParseWhole(file) == ParseWhole(base)
  {
  }

  lemma PartOfPrefix(a: seq<byte>, b: seq<byte>, start: nat, end: nat, n: nat)
    requires start + n <= end <= |a| && end <= |b| && a[..start + n] == b[..start + n]
    ensures a[start..end][..n] == b[start..end][..n]
  {
    assert a[start..end][..n] == a[..start + n][start..];
    assert b[start..end][..n] == b[..start + n][start..];
  }

  lemma ParseOfAgreeing(base: seq<byte>, file: seq<byte>)
    requires Signed(base) && |base| <= |file|
    requires var d, end := ParseWhole(base).directory, ParseWhole(base).signature;
      d + 8 <= end <= |base| && base[..d + 4] == file[..d + 4]
    ensures Signed(file) && ParseWhole(file) == ParseWhole(base)
  {
    var d, nt := ParseWhole(base).directory, LE32(base, 60);
    var start, end := nt + 24, nt + 24 + RoundUp(LE16(base, nt + 20));
    EntryBeforeSignature(base);
    EntryInside(base);
    SameHeaders(base, file, d + 4);
    PartOfPrefix(base, file, start, end, d + 4 - start);
    SameFields(base[start..end], file[start..end], nt);
    SameLayout(base, file, nt, end);
  }

  lemma SameFields(a: seq<byte>, b: seq<byte>, nt: nat)
    requires |a| == |b| && ParseOptional(a, nt).Executable?
    requires var n := ParseOptional(a, nt).directory - nt - 24 + 4;
      132 <= n <= |a| && a[..n] == b[..n]
    ensures ParseOptional(b, nt) == ParseOptional(a, nt)
  {
    var at := ParseOptional(a, nt).directory - nt - 24;
    assert forall i :: 0 <= i < at + 4 ==> b[i] == b[..at + 4][i] == a[i];
    assert b[0] == a[0] && b[1] == a[1];
    assert LE32(b, at) == LE32(a, at);
  }

  lemma AgreesBeforeSignature(base: seq<byte>, table: nat, start: nat, size: seq<byte>, inner: seq<byte>,
                              padding: seq<byte>, m: seq<byte>)
    requires |m| < WORD && |size| == 4 && |inner| == 4 && table + 8 <= start && start + 4 <= |base|
    ensures var file := EmbedSigned(base, table, start, size, inner, padding, m);
      && |file| == |base| + |padding| + |m| + TRAILER
      && base[..table + 4] == file[..table + 4]
      && forall i :: 0 <= i < start && !(table + 4 <= i < table + 8) ==> file[i] == base[i]
  {
  }

  // ----- Files as the C library reads them -----

  class File {
    const data: seq<byte>
    var pos: nat

    constructor (data: seq<byte>)
      ensures this.data == data && pos == 0
    {
      this.data := data;
      pos := 0;
    }

    /** A seek to a negative position fails and changes nothing. */
    method Seek(origin: nat, offset: int)
      modifies this
      ensures pos == if origin + offset >= 0 then origin + offset else old(pos)
    {
      if origin + offset >= 0 { pos := origin + offset; }
    }

    method Read(buffer: array<byte>, n: nat) returns (k: nat)
      requires n <= buffer.Length
      modifies this, buffer
      ensures k == (if old(pos) >= |data| then 0 else if n <= |data| - old(pos) then n else |data| - old(pos))
      ensures pos == old(pos) + k
      ensures forall i :: 0 <= i < k ==> buffer[i] == data[old(pos) + i]
      ensures forall i :: k <= i < buffer.Length ==> buffer[i] == old(buffer[i])
    {
      k := if pos >= |data| then 0 else if n <= |data| - pos then n else |data| - pos;
      forall i | 0 <= i < k { buffer[i] := data[pos + i]; }
      pos := pos + k;
    }
  }

  /** Reads the headers of a Windows executable through the general buffer. */
  method ReadLayout(f: File, scratch: array<byte>) returns (layout: Layout)
    requires scratch.Length >= 24
    modifies f, scratch
    ensures layout == Parse(f.data, true, old(scratch[..]))
    ensures layout.Plain? ==>
      f.pos == (if |f.data| < 2 then |f.data| else 2) && scratch[..] == First(f.data, old(scratch[..]))
  {
    f.Seek(0, 0);
    var n := f.Read(scratch, 2);
    assert scratch[..] == First(f.data, old(scratch[..]));
    if scratch[0] as int * 0x100 + scratch[1] as int != 19802 { return Plain; }
    var nt := ReadNtIndex(f);
    layout := ReadPe(f, scratch, nt);
  }

  method ReadPe(f: File, scratch: array<byte>, nt: nat) returns (layout: Layout)
    requires scratch.Length >= 24
    modifies f, scratch
    ensures var header := Overlay(f.data, nt, old(scratch[..24]));
      layout == if LE32(header, 0) != 17744 then Rejected
                else ParseOptional(Overlay(f.data, nt + 24, Zeros(RoundUp(LE16(header, 20)))), nt)
    ensures layout != Plain
  {
    f.Seek(0, nt);
    var n := f.Read(scratch, 24);
    assert scratch[..24] == Overlay(f.data, nt, old(scratch[..24]));
    LE32Inside(scratch[..], 0, 24, 0);
    LE32Inside(scratch[..], 0, 24, 20);
    if LE32(scratch[..], 0) != 17744 { return Rejected; }
    layout := ReadOptional(f, nt, LE16(scratch[..], 20));
  }

  method ReadNtIndex(f: File) returns (nt: nat)
    modifies f
    ensures nt == NtHeader(f.data)
  {
    var word := new byte[4](i => 0);
    f.Seek(0, 60);
    var n := f.Read(word, 4);
    assert word[..] == Overlay(f.data, 60, Zeros(4));
    nt := LE32(word[..], 0);
  }

  /** Reads the optional header from where the file stands, just after the other headers or at its end. */
  method ReadOptional(f: File, nt: nat, size: nat) returns (layout: Layout)
    requires f.pos == nt + 24 || (f.pos >= |f.data| && nt + 24 >= |f.data|)
    modifies f
    ensures layout == ParseOptional(Overlay(f.data, nt + 24, Zeros(RoundUp(size))), nt)
    ensures layout != Plain
  {
    var optHeader := new byte[RoundUp(size)](i => 0);
    var n := f.Read(optHeader, optHeader.Length);
    assert optHeader[..] == Overlay(f.data, nt + 24, Zeros(RoundUp(size)));
    if optHeader.Length > 4 {
      if LE16(optHeader[..], 0) == 0x10B {
        if optHeader.Length >= 132 {
          return Executable(nt + 24 + 64, nt + 24 + 128, LE32(optHeader[..], 128));
        }
      } else if LE16(optHeader[..], 0) == 0x20B {
        if optHeader.Length >= 148 {
          return Executable(nt + 24 + 64, nt + 24 + 144, LE32(optHeader[..], 144));
        }
      }
    }
    layout := Rejected;
  }

  /** Looks for the trailer. */
  method FindEnd(f: File, scratch: array<byte>) returns (endIndex: nat)
    requires scratch.Length >= 16 && (|f.data| >= 16 || f.pos <= |f.data|)
    modifies f, scratch
    ensures endIndex == TrailerCut(f.data, Window(f.data, old(f.pos), old(scratch[..])))
  {
    ReadTail(f, scratch);
    if scratch[..16] == GUID {
      f.Seek(f.pos, -20);
      var length := ReadLength(f);
      endIndex := (f.pos - 4 - length) % WORD;
    } else {
      endIndex := f.pos % WORD;
    }
  }

  /** Reads the length in the trailer; the 0 that it started as stays when nothing is left to read. */
  method ReadLength(f: File) returns (length: nat)
    requires f.pos + 4 <= |f.data| || f.pos == |f.data|
    modifies f
    ensures f.pos == old(f.pos) + (if old(f.pos) == |f.data| then 0 else 4)
    ensures length == if old(f.pos) == |f.data| then 0 else BE32(f.data, old(f.pos))
  {
    var word := new byte[4](i => 0);
    ghost var start := f.pos;
    var n := f.Read(word, 4);
    if start < |f.data| { assert word[..] == f.data[start..start + 4]; }
    length := BE32(word[..], 0);
  }

  /** Reads the last 16 octets; a shorter file cannot be sought, and is read from where it stands. */
  method ReadTail(f: File, scratch: array<byte>)
    requires scratch.Length >= 16 && (|f.data| >= 16 || f.pos <= |f.data|)
    modifies f, scratch
    ensures f.pos == |f.data| && scratch[..16] == Window(f.data, old(f.pos), old(scratch[..]))
  {
    f.Seek(|f.data|, -16);
    var n := f.Read(scratch, 16);
  }

  /** Hashes the headers with the checksum and the directory entry zeroed. */
  method DigestHeaders(f: File, scratch: array<byte>, layout: Layout) returns (digested: seq<byte>)
    requires layout.Executable? && f.pos == 0 && layout.checksum + 12 <= layout.directory + 8
    requires Addressable(layout, |f.data|, scratch.Length)
    modifies f, scratch
    ensures f.pos == HeaderEnd(layout, |f.data|) && digested == Mask(f.data, layout)[..f.pos]
  {
    var first := DigestChecksum(f, scratch, layout);
    var second := DigestDirectory(f, scratch, layout);
    ghost var masked, c := Mask(f.data, layout), layout.checksum + 4;
    assert masked[..f.pos] == masked[..c] + masked[c..f.pos];
    digested := first + second;
  }

  method DigestChecksum(f: File, scratch: array<byte>, layout: Layout) returns (digested: seq<byte>)
    requires layout.Executable? && f.pos == 0 && layout.checksum + 12 <= layout.directory + 8
    requires Addressable(layout, |f.data|, scratch.Length)
    modifies f, scratch
    ensures f.pos == layout.checksum + 4 && digested == Mask(f.data, layout)[..f.pos]
  {
    var c := layout.checksum;
    var n := f.Read(scratch, c + 4);
    forall i | 0 <= i < 4 { scratch[c + i] := 0; }
    digested := scratch[..n];
    assert digested == Mask(f.data, layout)[..c + 4];
  }

  method DigestDirectory(f: File, scratch: array<byte>, layout: Layout) returns (digested: seq<byte>)
    requires layout.Executable? && f.pos == layout.checksum + 4 && layout.checksum + 12 <= layout.directory + 8
    requires Addressable(layout, |f.data|, scratch.Length)
    modifies f, scratch
    ensures layout.checksum + 4 <= f.pos == HeaderEnd(layout, |f.data|) <= |f.data|
    ensures digested == Mask(f.data, layout)[layout.checksum + 4..f.pos]
  {
    var n := f.Read(scratch, layout.directory + 8 - (layout.checksum + 4));
    forall i | n - 8 <= i < n { scratch[i] := 0; }
    digested := scratch[..n];
  }

  /** `scratch` is the agent's general buffer, with whatever was in it. */
  method GenerateFileHash(data: seq<byte>, win32: bool, scratch: array<byte>) returns (digested: Option<seq<byte>>)
    requires scratch.Length >= 24 && |data| < MAX_FILE
    requires Addressable(Parse(data, win32, scratch[..]), |data|, scratch.Length)
    modifies scratch
    ensures digested == Digested(data, win32, old(scratch[..]))
  {
    var f := new File(data);
    var layout := Plain;
    if win32 {
      layout := ReadLayout(f, scratch);
      if layout.Rejected? { return None; }
    }
    ghost var window := Tail(data, win32, old(scratch[..]));
    var endIndex := 0;
    if layout.Executable? && layout.signature != 0 { endIndex := layout.signature; }
    if endIndex == 0 {
      assert |data| < 16 ==> layout.Plain?;
      assert Window(data, f.pos, scratch[..]) == window;
      endIndex := FindEnd(f, scratch);
    }
    assert endIndex == EndIndex(data, layout, window);
    SignatureIsWord(data, win32, old(scratch[..]));

    f.Seek(0, 0);
    var sum := DigestUpTo(f, scratch, layout, endIndex);
    digested := Some(sum);
  }

  lemma SignatureIsWord(data: seq<byte>, win32: bool, stale: seq<byte>)
    requires |stale| >= 24
    ensures var p := Parse(data, win32, stale);
      p.Executable? ==> p.signature < WORD && p.checksum + 64 <= p.directory
  {
  }

  lemma DifferenceWraps(a: nat, b: nat)
    requires a < WORD && b < WORD
    ensures (a - b) % WORD == if a < b then a + WORD - b else a - b
  {
  }

  method DigestUpTo(f: File, scratch: array<byte>, layout: Layout, endIndex: nat) returns (sum: seq<byte>)
    requires scratch.Length > 0 && f.pos == 0 && |f.data| < WORD && endIndex < WORD
    requires Addressable(layout, |f.data|, scratch.Length)
    requires layout.Executable? ==> layout.checksum + 64 <= layout.directory
    modifies f, scratch
    ensures sum == Mask(f.data, layout)[..Limit(|f.data|, layout, endIndex)]
  {
    var bytesLeft := endIndex;
    sum := [];
    if layout.Executable? {
      sum := DigestHeaders(f, scratch, layout);
      if endIndex > 0 {
        bytesLeft := (endIndex - |sum|) % WORD;
        DifferenceWraps(endIndex, |sum|);
      }
    }
    ghost var masked, stop := Mask(f.data, layout), Limit(|f.data|, layout, endIndex);
    var rest := DigestRest(f, scratch, endIndex, bytesLeft, stop);
    assert f.data[|sum|..stop] == masked[|sum|..stop];
    assert masked[..stop] == masked[..|sum|] + masked[|sum|..stop];
    sum := sum + rest;
  }

  /** The hashing loop: `bytesLeft` octets, or all that are left when there is no end or it is beyond the file. */
  method DigestRest(f: File, scratch: array<byte>, endIndex: nat, bytesLeft: nat, ghost stop: nat)
    returns (rest: seq<byte>)
    requires scratch.Length > 0 && f.pos <= |f.data|
    requires stop == if endIndex == 0 || f.pos + bytesLeft > |f.data| then |f.data| else f.pos + bytesLeft
    modifies f, scratch
    ensures rest == f.data[old(f.pos)..stop]
  {
    ghost var start := f.pos;
    var left := bytesLeft;
    rest := [];
    while true
      invariant start <= f.pos <= stop && rest == f.data[start..f.pos]
      invariant endIndex > 0 ==> left == start + bytesLeft - f.pos
      decreases |f.data| - f.pos
    {
      var want := if endIndex == 0 || left > scratch.Length then scratch.Length else left;
      ghost var at := f.pos;
      var n := f.Read(scratch, want);
      if n == 0 { break; }
      assert scratch[..n] == f.data[at..at + n];
      assert f.data[start..at + n] == f.data[start..at] + f.data[at..at + n];
      rest := rest + scratch[..n];
      if endIndex > 0 {
        left := left - n;
        if left == 0 { break; }
      }
    }
  }

  // ----- The reader of embedded settings -----

  /** What the reader ends with: nothing, the octets it read of those it wanted, or the end of the agent. */
  datatype Read = NothingFound | Got(octets: seq<byte>, wanted: nat) | Fatal

  /** What is read when `length` octets are wanted from position `start`. */
  function GotFrom(data: seq<byte>, start: nat, length: nat): Read
    requires start <= |data|
  {
    Got(data[start..if start + length <= |data| then start + length else |data|], length)
  }

  /** A length that exceeds the file leaves the reader at the GUID, where at most 16 octets are left. */
  function EmbeddedRead(data: seq<byte>): Read {
    if |data| < TRAILER || !HasTrailer(data) then NothingFound
    else
      var length := BE32(data, |data| - TRAILER);
      if length >= 0x8000_0000 then Fatal
      else GotFrom(data, if length <= |data| - TRAILER then |data| - TRAILER - length else |data| - 16, length)
  }

  /** The settings file written beside the executable, if any: only a complete one. */
  function Written(r: Read): Option<seq<byte>> {
    if r.Got? && |r.octets| == r.wanted then Some(r.octets) else None
  }

  /** The buffer handed to a caller that asks for one: what could not be read is 0 in it. */
  function HandedBack(r: Read): Option<seq<byte>> {
    if r.Got? then Some(r.octets + Zeros(if |r.octets| <= r.wanted then r.wanted - |r.octets| else 0)) else None
  }

  method ReadEmbedded(data: seq<byte>, wantsBuffer: bool, scratch: array<byte>)
    returns (fatal: bool, msh: Option<seq<byte>>)
    requires scratch.Length >= 16
    modifies scratch
    ensures var r := EmbeddedRead(data);
      && (fatal <==> r.Fatal?)
      && (!fatal ==> msh == if wantsBuffer then HandedBack(r) else Written(r))
  {
    fatal, msh := false, None;
    var f := new File(data);
    var found, length := ReadTrailer(f, scratch);
    if !found { return; }
    if length >= 0x8000_0000 { return true, None; }  // a negative length cannot be allocated
    f.Seek(f.pos, -4 - (length as int));
    msh := ReadContents(f, length, wantsBuffer);
  }

  method ReadTrailer(f: File, scratch: array<byte>) returns (found: bool, length: nat)
    requires scratch.Length >= 16 && f.pos == 0
    modifies f, scratch
    ensures found <==> |f.data| >= TRAILER && HasTrailer(f.data)
    ensures found ==> length == BE32(f.data, |f.data| - TRAILER) && f.pos == |f.data| - 16
  {
    found, length := false, 0;
    f.Seek(|f.data|, -16);
    var n := f.Read(scratch, 16);
    assert |f.data| >= 16 ==> scratch[..16] == f.data[|f.data| - 16..];
    if scratch[..16] != GUID { return; }
    f.Seek(f.pos, -20);
    var word := new byte[4](i => 0);
    n := f.Read(word, 4);
    if n != 4 { return; }
    assert word[..] == f.data[|f.data| - TRAILER..|f.data| - TRAILER + 4];
    SameBE32(f.data, |f.data| - TRAILER, word[..]);
    found, length := true, BE32(word[..], 0);
  }

  /** The buffer is handed over before it is filled; a file is written only from a full one. */
  method ReadContents(f: File, length: nat, wantsBuffer: bool) returns (msh: Option<seq<byte>>)
    requires f.pos <= |f.data|
    modifies f
    ensures var r := GotFrom(f.data, old(f.pos), length);
      msh == if wantsBuffer then HandedBack(r) else Written(r)
  {
    msh := None;
    ghost var start := f.pos;
    var contents := new byte[length](i => 0);
    var n := f.Read(contents, length);
    assert contents[..n] == f.data[start..start + n] == GotFrom(f.data, start, length).octets;
    if wantsBuffer {
      msh := Some(contents[..]);
      assert contents[..] == contents[..n] + Zeros(length - n);
    } else if n == length {
      msh := Some(contents[..]);
      assert contents[..] == contents[..n];
    }
  }

  /**
   The two callers get the same settings exactly when there are none or the length in the trailer is not longer
   than what is left to read; otherwise one gets no settings, and the other ones filled up with zeros.
   */
  lemma CallersAgreeIff(data: seq<byte>)
    ensures var r := EmbeddedRead(data);
      HandedBack(r) == Written(r) <==>
      (|data| < TRAILER || !HasTrailer(data)
       || var length := BE32(data, |data| - TRAILER);
          length >= 0x8000_0000 || length <= 16 || length <= |data| - TRAILER)
  {
    var r := EmbeddedRead(data);
    if r.Got? && |r.octets| == r.wanted { assert r.octets + Zeros(0) == r.octets; }
  }

  /** A length that is too long by itself: the caller that asks for a buffer gets the GUID and zeros. */
  lemma OverlongLengthIsHandedBack(length: nat)
    requires 16 < length < 0x8000_0000
    ensures var r := EmbeddedRead(ToBE32(length) + GUID);
      Written(r) == None && HandedBack(r) == Some(GUID + Zeros(length - 16))
  {
    var data := ToBE32(length) + GUID;
    assert data[4..] == GUID;
    SameBE32(data, 0, ToBE32(length));
    assert EmbeddedRead(data).octets == data[4..];
  }

  /**
   Both callers get exactly the embedded settings, however they were embedded, and the reader cuts the file
   where the hash does.
   */
  lemma EmbeddedRoundTrip(rest: seq<byte>, m: seq<byte>, file: seq<byte>)
    requires |rest| + |m| + TRAILER < WORD && |m| < 0x8000_0000
    requires file == rest + m + ToBE32(|m|) + GUID
    ensures |file| >= TRAILER && TrailerCut(file, GUID) == |rest|
    ensures EmbeddedRead(file) == Got(m, |m|)
    ensures Written(EmbeddedRead(file)) == HandedBack(EmbeddedRead(file)) == Some(m)
  {
    TrailerOfEmbed(rest, m);
    assert |file| - TRAILER - |m| == |rest|;
    assert m + Zeros(0) == m;
  }
}
