/** The file sections of a connection: an inline slot, or an array that grows, filled from a Range header. */
module HttpSects {
  import opened Vstr
  import opened Number
  import opened HttpText
  import opened HttpRange

  datatype FileSect = FileSect(fd: int, off: nat, len: nat)

  /** The section of a range, in an open file. */
  function SectOf(b: Bytes, fd: int): FileSect
    requires b.beg <= b.end
  {
    FileSect(fd, b.beg, b.end - b.beg + 1)
  }

  /** Section i is range i of the list, in the one open file. */
  ghost predicate Records(sects: seq<FileSect>, list: seq<Bytes>, fd: int) {
    && |sects| == |list|
    && (forall i :: 0 <= i < |list| ==> list[i].beg <= list[i].end && sects[i] == SectOf(list[i], fd))
  }

  class Con {
    const fsStore: array<FileSect>
    var fs: array<FileSect>
    var fsNum: nat
    var fsSz: nat
    var useMpbr: bool

    /** A connection before its first request. */
    constructor (fd: int)
      ensures Valid() && fsNum == 0 && !useMpbr && fs[0].fd == fd && fresh(fs) && fs == fsStore
    {
      var a := new FileSect[1](_ => FileSect(fd, 0, 0));
      fsStore, fs, fsNum, fsSz, useMpbr := a, a, 0, 1, false;
    }

    ghost predicate Valid()
      reads this, fs
    {
      && fs.Length == fsSz >= 1 && fsStore.Length == 1
      && fsNum <= fsSz
      && (fs == fsStore || fsSz > 1)
      && (useMpbr <==> fsNum > 1)
    }

    ghost function Sects(): seq<FileSect>
      reads this, fs
      requires Valid()
    {
      fs[..fsNum]
    }

    /** Room for n sections; the ones there are move to the new array. */
    method Grow(n: nat)
      requires Valid() && n > fsSz && n > 1
      modifies this`fs, this`fsSz
      ensures Valid() && fresh(fs) && fsSz == n && fsNum == old(fsNum)
      ensures Sects() == old(Sects()) && fs[0] == old(fs[0])
    {
      var a := new FileSect[n](_ => FileSect(-1, 0, 0));
      for i := 0 to fsSz
        invariant a.Length == n && fresh(a)
        invariant a[..i] == fs[..i]
        modifies a
      {
        a[i] := fs[i];
      }
      assert a[0] == a[..fsSz][0] == fs[0];
      assert a[..fsNum] == a[..fsSz][..fsNum];
      fs, fsSz := a, n;
    }

    /** httpd__file_sect_add; len is what is left of the header. */
    method FileSectAdd(beg: nat, end: nat, len: nat, max: nat) returns (ok: bool)
      requires Valid() && beg <= end
      modifies this`fs, this`fsSz, this`fsNum, this`useMpbr, fs
      ensures Valid() && (fs == old(fs) || fresh(fs)) && fsNum == old(fsNum) + 1
      ensures Sects() == old(Sects()) + [FileSect(old(fs[0].fd), beg, end - beg + 1)]
      ensures fs[0].fd == old(fs[0].fd)
      ensures old(fsNum) < old(fsSz) ==> fs == old(fs)
      ensures ok == (len == 0 || max > fsNum)
    {
      ghost var was := Sects();
      if fsNum > 0 {
        if fs == fsStore {
          Grow(16);
        } else if fsNum >= fsSz {
          Grow(fsSz * 2 + 1);
        }
        useMpbr := true;
      }
      fs[fsNum] := FileSect(fs[0].fd, beg, end - beg + 1);
      fsNum := fsNum + 1;
      assert Sects() == was + [fs[fsNum - 1]];
      return len == 0 || max > fsNum;
    }

    /** http_parse_range, on an empty list of sections. */
    method ParseRange(data: string, pos0: nat, len0: nat, fsize: nat, max: nat) returns (code: nat)
      requires Valid() && fsNum == 0 && Within(data, pos0, len0) && fsize < UINTMAX
      modifies this`fs, this`fsSz, this`fsNum, this`useMpbr, fs
      ensures Valid() && (code == 200 || code == 0 || code == 416)
      ensures match Header(Slice(data, pos0, len0), fsize, max)
        case Code(c) => code == c
        case All(list) => code == 200 && Records(Sects(), list, old(fs[0].fd))
    {
      hide Header, RangesAt, Lws, Blanks, Starts, HasPrefix, ItemAt;
      ghost var s := Slice(data, pos0, len0);
      HeaderIs(s, fsize, max);
      var pos: nat, len: nat := pos0, len0;
      HasPrefixIs(data, pos, len, "bytes");
      if !HasPrefix(data, pos, len, "bytes") {
        return 0;
      }
      StartsLong(s, "bytes");
      len, pos := len - 5, pos + 5;
      SliceRest(data, pos0, len0, 5);
      pos, len := SkipLws(data, pos, len);
      SliceRest(data, pos0, len0, pos - pos0);
      HasPrefixIs(data, pos, len, "=");
      if !HasPrefix(data, pos, len, "=") {
        return 0;
      }
      StartsLong(Slice(data, pos, len), "=");
      len, pos := len - 1, pos + 1;
      SliceRest(data, pos0, len0, pos - pos0);
      pos, len := SkipBlanks(data, pos, len);
      SliceRest(data, pos0, len0, pos - pos0);
      code := ParseRanges(data, pos, len, fsize, max);
    }

    /** The loop over the ranges of a header. */
    method ParseRanges(data: string, pos0: nat, len0: nat, fsize: nat, max: nat) returns (code: nat)
      requires Valid() && fsNum == 0 && Within(data, pos0, len0) && fsize < UINTMAX
      modifies this`fs, this`fsSz, this`fsNum, this`useMpbr, fs
      ensures Valid() && (code == 200 || code == 0 || code == 416)
      ensures match RangesAt(Slice(data, pos0, len0), fsize, max, 0)
        case Code(c) => code == c
        case All(list) => code == 200 && Records(Sects(), list, old(fs[0].fd))
    {
      hide RangesAt, Blanks, ItemAt, Records;
      ghost var done: seq<Bytes>, fd := [], fs[0].fd;
      ghost var whole := RangesAt(Slice(data, pos0, len0), fsize, max, 0);
      var pos, len := pos0, len0;
      RecordsNone(Sects(), fd);
      SoFarNone(whole, Slice(data, pos, len), fsize, max);
      while len > 0
        invariant Valid() && (fs == old(fs) || fresh(fs)) && fsNum == |done| && fs[0].fd == fd
        invariant Within(data, pos, len)
        invariant Records(Sects(), done, fd)
        invariant SoFar(whole, done, Slice(data, pos, len), fsize, max)
        decreases len
      {
        ghost var s := Slice(data, pos, len);
        SoFarStep(whole, done, s, fsize, max);
        var stop, b, n := ParseItem(data, pos, len, fsize);
        if stop.Some? {
          return stop.value;
        }
        SliceRest(data, pos, len, n);
        ghost var p := pos;
        pos, len := SkipBlanks(data, pos + n, len - n);
        SliceRest(data, p, |s|, pos - p);
        ItemOrder(s, fsize);
        RecordsMore(Sects(), done, fd, b);
        done := done + [b];
        var ok := FileSectAdd(b.beg, b.end, len, max);
        if !ok {
          return 0;
        }
      }
      SoFarDone(whole, done, fsize, max);
      return 200;
    }
  }

  lemma HeaderIs(s: string, fsize: nat, max: nat)
    ensures !Starts(s, "bytes") ==> Header(s, fsize, max) == Code(0)
    ensures Starts(s, "bytes") ==>
      var k := 5 + Lws(s[5..]);
      Header(s, fsize, max) ==
        if !Starts(s[k..], "=") then Code(0)
        else RangesAt(s[k + 1 + Blanks(s[k + 1..])..], fsize, max, 0)
  {
    hide RangesAt, Lws, Blanks;
  }

  lemma ItemOrder(s: string, fsize: nat)
    requires fsize < UINTMAX && ItemAt(s, fsize).Got?
    ensures ItemAt(s, fsize).bytes.beg <= ItemAt(s, fsize).bytes.end
  {
    hide ItemAt;
    ItemInside(s, fsize);
  }

  lemma RecordsNone(sects: seq<FileSect>, fd: int)
    requires sects == []
    ensures Records(sects, [], fd)
  {
  }

  lemma RecordsMore(sects: seq<FileSect>, list: seq<Bytes>, fd: int, b: Bytes)
    requires Records(sects, list, fd) && b.beg <= b.end
    ensures Records(sects + [SectOf(b, fd)], list + [b], fd)
  {
  }

  /** What the whole header comes to, when these ranges have been read and this is left. */
  ghost predicate SoFar(whole: Ranges, done: seq<Bytes>, s: string, fsize: nat, max: nat) {
    whole == match RangesAt(s, fsize, max, |done|)
             case Code(c) => Code(c)
             case All(list) => All(done + list)
  }

  lemma SoFarNone(whole: Ranges, s: string, fsize: nat, max: nat)
    requires whole == RangesAt(s, fsize, max, 0)
    ensures SoFar(whole, [], s, fsize, max)
  {
    hide RangesAt;
    match whole
    case Code(_) =>
    case All(list) => assert [] + list == list;
  }

  lemma SoFarDone(whole: Ranges, done: seq<Bytes>, fsize: nat, max: nat)
    requires SoFar(whole, done, [], fsize, max)
    ensures whole == All(done)
  {
    assert done + [] == done;
  }

  lemma SoFarStep(whole: Ranges, done: seq<Bytes>, s: string, fsize: nat, max: nat)
    requires SoFar(whole, done, s, fsize, max) && s != []
    ensures match ItemAt(s, fsize)
      case Stop(c) => whole == Code(c) && (c == 0 || c == 416)
      case Got(b, n) =>
        var rest := s[n + Blanks(s[n..])..];
        if rest != [] && max <= |done| + 1 then whole == Code(0)
        else SoFar(whole, done + [b], rest, fsize, max)
  {
    hide ItemAt, Blanks;
    match ItemAt(s, fsize)
    case Stop(_) =>
    case Got(b, n) =>
      match RangesAt(s[n + Blanks(s[n..])..], fsize, max, |done| + 1)
      case Code(_) =>
      case All(list) => assert done + ([b] + list) == done + [b] + list;
  }

  /** One range of the header. */
  method ParseItem(data: string, pos: nat, len: nat, fsize: nat)
    returns (stop: Option<nat>, b: Bytes, n: nat)
    requires Within(data, pos, len) && fsize < UINTMAX
    ensures match ItemAt(Slice(data, pos, len), fsize)
      case Stop(c) => stop == Some(c)
      case Got(bytes, k) => stop == None && b == bytes && n == k
  {
    hide ItemAt, HasPrefix, Starts;
    HasPrefixIs(data, pos, len, "-");
    if HasPrefix(data, pos, len, "-") {
      stop, b, n := ParseLast(data, pos, len, fsize);
    } else {
      stop, b, n := ParseOffset(data, pos, len, fsize);
    }
  }

  /** The last bytes of the file. */
  method ParseLast(data: string, pos0: nat, len0: nat, fsize: nat)
    returns (stop: Option<nat>, b: Bytes, n: nat)
    requires Within(data, pos0, len0) && fsize < UINTMAX && Starts(Slice(data, pos0, len0), "-")
    ensures match ItemAt(Slice(data, pos0, len0), fsize)
      case Stop(c) => stop == Some(c)
      case Got(bytes, k) => stop == None && b == bytes && n == k
  {
    hide Lws, Starts, ItemAt, Uint, Slice;
    ghost var s := Slice(data, pos0, len0);
    StartsLong(s, "-");
    var pos: nat, len: nat := pos0 + 1, len0 - 1;
    stop, b, n := None, Bytes(0, 0), 0;
    SliceRest(data, pos0, len0, 1);
    pos, len := SkipLws(data, pos, len);
    SliceRest(data, pos0, len0, pos - pos0);
    LastItem(s, fsize, pos - pos0);
    var tmp := Uint(Slice(data, pos, len));
    len, pos := len - tmp.len, pos + tmp.len;
    if tmp.len == 0 {
      return Some(0), b, n;
    }
    if tmp.value == 0 {
      return Some(416), b, n;
    }
    if tmp.value >= fsize {
      return Some(0), b, n;
    }
    return None, Bytes(fsize - tmp.value, fsize - 1), pos - pos0;
  }

  lemma LastItem(s: string, fsize: nat, k: nat)
    requires Starts(s, "-") && k == 1 + Lws(s[1..])
    ensures ItemAt(s, fsize) ==
      if Uint(s[k..]).len == 0 then Stop(0) else Suffix(Uint(s[k..]).value, fsize, k + Uint(s[k..]).len)
  {
    hide Lws, Suffix;
  }

  /** A range with a first byte. */
  method ParseOffset(data: string, pos0: nat, len0: nat, fsize: nat)
    returns (stop: Option<nat>, b: Bytes, n: nat)
    requires Within(data, pos0, len0) && fsize < UINTMAX && !Starts(Slice(data, pos0, len0), "-")
    ensures match ItemAt(Slice(data, pos0, len0), fsize)
      case Stop(c) => stop == Some(c)
      case Got(bytes, k) => stop == None && b == bytes && n == k
  {
    hide Lws, Starts, HasPrefix, ItemAt, EndOf, Slice;
    ghost var s := Slice(data, pos0, len0);
    var pos: nat, len: nat := pos0, len0;
    stop, b, n := None, Bytes(0, 0), 0;
    var beg := Uint(Slice(data, pos, len));
    len, pos := len - beg.len, pos + beg.len;
    SliceRest(data, pos0, len0, pos - pos0);
    pos, len := SkipLws(data, pos, len);
    SliceRest(data, pos0, len0, pos - pos0);
    HasPrefixIs(data, pos, len, "-");
    if !HasPrefix(data, pos, len, "-") {
      NoDash(s, fsize, pos - pos0);
      return Some(0), b, n;
    }
    ItemIsFrom(s, fsize, pos - pos0);
    StartsLong(Slice(data, pos, len), "-");
    len, pos := len - 1, pos + 1;
    SliceRest(data, pos0, len0, pos - pos0);
    pos, len := SkipLws(data, pos, len);
    SliceRest(data, pos0, len0, pos - pos0);
    stop, b, n := ParseEnd(data, pos, len, fsize, beg.value, pos - pos0);
  }

  /** The end of a range with a first byte, after the dash, which is k bytes into the header. */
  method ParseEnd(data: string, pos: nat, len: nat, fsize: nat, beg: nat, k: nat)
    returns (stop: Option<nat>, b: Bytes, n: nat)
    requires Within(data, pos, len) && fsize < UINTMAX
    ensures var t := Slice(data, pos, len);
      match EndOf(t, beg, k, fsize)
      case Stop(c) => stop == Some(c)
      case Got(bytes, m) => stop == None && b == bytes && n == m
  {
    hide Starts, HasPrefix;
    stop, b, n := None, Bytes(0, 0), k;
    var last := (fsize + UINTMAX - 1) % UINTMAX;
    var end := last;
    HasPrefixIs(data, pos, len, ",");
    if len > 0 && !HasPrefix(data, pos, len, ",") {
      var e := Uint(Slice(data, pos, len));
      n := n + e.len;
      if e.len == 0 {
        return Some(0), b, n;
      }
      if e.value < fsize {
        end := e.value;
      }
    }
    if beg >= fsize || beg > end {
      return Some(416), b, n;
    }
    if beg == 0 && end == last {
      return Some(0), b, n;
    }
    b := Bytes(beg, end);
  }

  lemma NoDash(s: string, fsize: nat, k: nat)
    requires !Starts(s, "-") && k == Uint(s).len + Lws(s[Uint(s).len..]) && !Starts(s[k..], "-")
    ensures ItemAt(s, fsize) == Stop(0)
  {
    hide Lws;
  }
}
