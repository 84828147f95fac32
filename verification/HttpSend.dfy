/** Delivery of file sections by httpd_serv_send with sendfile, in as many goes as the kernel likes. */
module HttpSend {
  import opened Number
  import opened HttpSects
  import opened Vstr
  import opened HttpParts

  const SSIZE_MAX: nat := 0x7fff_ffff_ffff_ffff

  /** The whole response to a request for sections of a file. */
  ghost function Response(head: string, sects: seq<FileSect>, multi: bool, file: string, ctype: string): string
    requires AllInFile(sects, file) && sects != []
  {
    if multi then head + (Parts(sects, file, ctype) + SEP_END) else head + Content(sects[0], file)
  }

  /** Sending n bytes from the front of a section leaves the rest of it: the end does not move. */
  lemma Drains(s: FileSect, file: string, n: nat)
    requires InFile(s, file) && n <= s.len
    ensures var r := s.(off := s.off + n, len := s.len - n);
            InFile(r, file) && Content(s, file) == file[s.off..s.off + n] + Content(r, file)
            && r.off + r.len == s.off + s.len
  {
  }

  lemma Carry(a: string, b: string, c: string, n: nat)
    requires n <= |b|
    ensures a + (b + c) == (a + b[..n]) + (b[n..] + c)
  {
    assert b == b[..n] + b[n..];
  }

  lemma CarryFile(a: string, b: string, c: string, d: string)
    ensures a + ([] + ((b + c) + d)) == (a + b) + ([] + (c + d))
  {
    assert [] + ((b + c) + d) == b + (c + d);
    assert [] + (c + d) == c + d;
    assert a + (b + (c + d)) == (a + b) + (c + d);
  }

  lemma Group(a: string, b: string, c: string, d: string, e: string)
    ensures a + ((b + c + d) + e) == (a + b) + (c + (d + e))
  {
  }

  class Con {
    /** What the client has been sent, and what waits to be sent, io_w. */
    var sent: string
    var out: string

    const file: string
    const ctype: string
    const fs: array<FileSect>
    var fsOff: nat
    var fsNum: nat
    var useMpbr: bool
    /** An 8 bit counter, which wraps. */
    var ioLimit: nat

    /** The number of system calls so far. */
    var calls: nat

    ghost predicate Valid()
      reads this, fs
    {
      && fsNum <= fs.Length && (if fsNum == 0 then fsOff == 0 else fsOff < fsNum)
      && AllInFile(fs[fsOff..fsNum], file)
      && ioLimit < 256
      && (fsNum > 1 ==> useMpbr)
    }

    /** What is to come after the output that waits. */
    ghost function Pending(): string
      reads this`fsOff, this`fsNum, this`useMpbr, fs
      requires fsNum <= fs.Length && fsOff <= fsNum && AllInFile(fs[fsOff..fsNum], file)
    {
      if fsNum == fsOff then []
      else if useMpbr then
        Content(fs[fsOff], file) + (Parts(fs[fsOff..fsNum][1..], file, ctype) + SEP_END)
      else Content(fs[fsOff], file)
    }

    /** What the client will have got in the end. */
    ghost function Stream(): string
      reads this`sent, this`out, this`fsOff, this`fsNum, this`useMpbr, fs
      requires fsNum <= fs.Length && fsOff <= fsNum && AllInFile(fs[fsOff..fsNum], file)
    {
      sent + (out + Pending())
    }

    /** The end of a request for sections: the response head, and the header of the first part. */
    constructor (head: string, sects: seq<FileSect>, multi: bool, file: string, ctype: string)
      requires AllInFile(sects, file) && sects != [] && (|sects| > 1 ==> multi)
      ensures Valid() && Stream() == Response(head, sects, multi, file, ctype) && sent == [] && calls == 0
      ensures fresh(fs)
    {
      hide Parts, Content, PartHdr, Numeral;
      var a := new FileSect[|sects|](i requires 0 <= i < |sects| => sects[i]);
      this.file, this.ctype, fs := file, ctype, a;
      fsOff, fsNum, useMpbr, ioLimit, calls := 0, |sects|, multi, 0, 0;
      sent := [];
      out := if multi then head + PartHdr(sects[0], ctype, |file|) else head;
      new;
      assert fs[0..fsNum] == sects;
      PartsFirst(sects, file, ctype);
      Group(head, PartHdr(sects[0], ctype, |file|), Content(sects[0], file), Parts(sects[1..], file, ctype), SEP_END);
      assert [] + (out + Pending()) == out + Pending();
    }

    /** The post-decrement of io_limit_num: whether there was any left. */
    method UseIo() returns (ok: bool)
      requires ioLimit < 256
      modifies this`ioLimit
      ensures ok == (old(ioLimit) > 0) && ioLimit == (old(ioLimit) + 255) % 256
    {
      ok := ioLimit > 0;
      ioLimit := (ioLimit + 255) % 256;
    }

    /** evnt_send: the kernel takes some of the output. */
    method EvntSend(kernel: nat -> nat)
      requires Valid()
      modifies this`sent, this`out, this`calls
      ensures Valid() && Stream() == old(Stream()) && calls == old(calls) + 1
      ensures var n := if kernel(old(calls)) < |old(out)| then kernel(old(calls)) else |old(out)|;
              sent == old(sent) + old(out)[..n] && out == old(out)[n..]
    {
      hide Parts, Content, PartHdr, Numeral, Pending, AllInFile;
      var n := if kernel(calls) < |out| then kernel(calls) else |out|;
      Carry(sent, out, Pending(), n);
      sent, out, calls := sent + out[..n], out[n..], calls + 1;
    }

    /** evnt_sendfile: the kernel takes some of the section, none of it for EAGAIN. */
    method EvntSendfile(kernel: nat -> nat)
      requires Valid() && fsNum > 0 && out == []
      modifies this`sent, this`calls, fs
      ensures fsNum <= fs.Length && AllInFile(fs[fsOff + 1..fsNum], file)
      ensures fs[fsOff + 1..fsNum] == old(fs[fsOff + 1..fsNum]) && calls == old(calls) + 1
      ensures var s := old(fs[fsOff]);
        var max := if s.len < SSIZE_MAX then s.len else SSIZE_MAX;
        var n := if kernel(old(calls)) < max then kernel(old(calls)) else max;
        && fs[fsOff] == s.(off := s.off + n, len := s.len - n)
        && sent == old(sent) + file[s.off..s.off + n]
    {
      var s := fs[fsOff];
      assert InFile(fs[fsOff..fsNum][0], file);
      assert fs[fsOff + 1..fsNum] == fs[fsOff..fsNum][1..];
      var max := if s.len < SSIZE_MAX then s.len else SSIZE_MAX;
      var n := if kernel(calls) < max then kernel(calls) else max;
      sent, calls := sent + file[s.off..s.off + n], calls + 1;
      fs[fsOff] := s.(off := s.off + n, len := s.len - n);
    }

    /** Every system call that sends something brings the end nearer. */
    twostate predicate Sends(kernel: nat -> nat)
      reads this
    {
      && calls >= old(calls) && |sent| >= |old(sent)|
      && ((forall k :: kernel(k) > 0) ==> |sent| - |old(sent)| >= calls - old(calls))
    }

    /** httpd__serv_send_lim with a limit of 1: all waiting output is sent, or there are no calls left. */
    method ServSendLim(kernel: nat -> nat) returns (cont: bool)
      requires Valid()
      modifies this`sent, this`out, this`calls, this`ioLimit
      ensures Valid() && Stream() == old(Stream()) && (cont ==> out == []) && Sends(kernel)
      ensures cont ==> calls - old(calls) + ioLimit == old(ioLimit)
      ensures !cont ==> calls - old(calls) == old(ioLimit)
    {
      hide Parts, Content, PartHdr, Numeral, Pending, AllInFile;
      while |out| >= 1
        invariant Valid() && Stream() == old(Stream()) && Sends(kernel)
        invariant calls - old(calls) + ioLimit == old(ioLimit)
        decreases ioLimit
      {
        var ok := UseIo();
        if !ok {
          return false;
        }
        EvntSend(kernel);
      }
      return true;
    }

    /** The loop over sendfile: the current section is sent, or there are no calls left. */
    method SendSection(kernel: nat -> nat) returns (cont: bool)
      requires Valid() && fsNum > 0 && out == []
      modifies this`sent, this`calls, this`ioLimit, fs
      ensures Valid() && Stream() == old(Stream()) && (cont ==> fs[fsOff].len == 0) && Sends(kernel)
      ensures cont ==> calls - old(calls) + ioLimit == old(ioLimit)
      ensures !cont ==> calls - old(calls) == old(ioLimit)
    {
      hide Parts, Content, PartHdr, Numeral, Pending, AllInFile;
      while fs[fsOff].len > 0
        invariant Valid() && Stream() == old(Stream()) && Sends(kernel)
        invariant calls - old(calls) + ioLimit == old(ioLimit)
        decreases ioLimit
      {
        var ok := UseIo();
        if !ok {
          return false;
        }
        SendfileStep(kernel);
      }
      return true;
    }

    method SendfileStep(kernel: nat -> nat)
      requires Valid() && fsNum > 0 && out == [] && fs[fsOff].len > 0
      modifies this`sent, this`calls, fs
      ensures Valid() && Stream() == old(Stream()) && calls == old(calls) + 1
      ensures |sent| >= |old(sent)| && (kernel(old(calls)) > 0 ==> |sent| > |old(sent)|)
    {
      hide Parts, Content, PartHdr, Numeral;
      ghost var s, was, rest := fs[fsOff], Pending(), fs[fsOff + 1..fsNum];
      PendingIs(s, rest);
      FirstInFile();
      EvntSendfile(kernel);
      ghost var n := s.len - fs[fsOff].len;
      assert fs[fsOff..fsNum] == [fs[fsOff]] + rest;
      Drains(s, file, n);
      PendingIs(fs[fsOff], rest);
      CarryFile(old(sent), file[s.off..s.off + n], Content(fs[fsOff], file),
        if useMpbr then Parts(rest, file, ctype) + SEP_END else []);
    }

    /** What is pending, by its first section and the others. */
    lemma PendingIs(s: FileSect, rest: seq<FileSect>)
      requires Valid() && fsNum > 0 && s == fs[fsOff] && rest == fs[fsOff + 1..fsNum]
      ensures InFile(s, file) && AllInFile(rest, file)
      ensures Pending() == Content(s, file) + if useMpbr then Parts(rest, file, ctype) + SEP_END else []
    {
      assert fs[fsOff..fsNum][0] == s;
      assert fs[fsOff..fsNum][1..] == rest;
      assert Content(s, file) + [] == Content(s, file);
    }

    lemma FirstInFile()
      requires Valid() && fsNum > 0
      ensures InFile(fs[fsOff], file)
    {
      assert fs[fsOff..fsNum][0] == fs[fsOff];
    }

    /** httpd__fd_next: whether there is another section; if not, there are none at all. */
    method FdNext() returns (more: bool)
      requires Valid() && fsNum > 0
      modifies this`fsOff, this`fsNum, this`useMpbr, fs
      ensures Valid() && more == (old(fsOff) + 1 < old(fsNum))
      ensures more ==> fsOff == old(fsOff) + 1 && fsNum == old(fsNum) && useMpbr == old(useMpbr) && fs[..] == old(fs[..])
      ensures !more ==> fsNum == 0 && fsOff == 0 && !useMpbr
    {
      hide Parts, Content, PartHdr, Numeral;
      fsOff := fsOff + 1;
      if fsOff >= fsNum {
        fs[fsOff - 1] := fs[fsOff - 1].(len := 0, fd := -1);
        fs[0] := fs[0].(fd := -1, len := 0);
        fsOff, fsNum, useMpbr := 0, 0, false;
        return false;
      }
      assert fs[fsOff..fsNum] == old(fs[fsOff..fsNum])[1..];
      return true;
    }

    /** What follows a section that has been sent: the header of the next part, the last separator, or
      nothing. */
    method NextPart()
      requires Valid() && fsNum > 0 && fs[fsOff].len == 0 && out == []
      modifies this`fsOff, this`fsNum, this`useMpbr, this`out, fs
      ensures Valid() && Stream() == old(Stream())
      ensures fsNum == 0 || (fsNum == old(fsNum) && fsOff == old(fsOff) + 1)
    {
      hide Parts, Content, PartHdr, Numeral;
      ghost var s, rest := fs[fsOff], fs[fsOff + 1..fsNum];
      PendingIs(s, rest);
      assert Content(s, file) == [] by { EmptySection(s); }
      if useMpbr {
        var more := FdNext();
        if more {
          var next := fs[fsOff];
          PartsFirst(rest, file, ctype);
          assert fs[fsOff + 1..fsNum] == rest[1..];
          PendingIs(next, rest[1..]);
          out := out + PartHdr(next, ctype, |file|);
          PartsSplit(PartHdr(next, ctype, |file|), Content(next, file), Parts(rest[1..], file, ctype));
        } else {
          NoParts(rest);
          out := out + SEP_END;
        }
      } else {
        var more := FdNext();
      }
    }

    lemma SentStream()
      requires Valid()
      ensures sent <= Stream() && (fsNum == 0 && out == [] ==> sent == Stream())
    {
    }

    lemma EmptySection(s: FileSect)
      requires InFile(s, file) && s.len == 0
      ensures Content(s, file) == []
    {
    }

    lemma NoParts(rest: seq<FileSect>)
      requires rest == []
      ensures Parts(rest, file, ctype) == []
    {
    }

    /** httpd_serv_send: true when the response is out. */
    method ServSend(kernel: nat -> nat) returns (fin: bool)
      requires Valid()
      modifies this`sent, this`out, this`calls, this`ioLimit, this`fsOff, this`fsNum, this`useMpbr, fs
      ensures Valid() && Stream() == old(Stream()) && Sends(kernel)
      ensures fin ==> fsNum == 0 && out == []
      ensures !fin ==> calls - old(calls) == old(ioLimit)
      ensures fin ==> calls - old(calls) + ioLimit == old(ioLimit)
      decreases if fsNum == 0 then 0 else 1 + fsNum - fsOff
    {
      hide Parts, Content, PartHdr, Numeral, Pending, AllInFile;
      var cont := ServSendLim(kernel);
      if !cont {
        return false;
      }
      if fsNum == 0 {
        return true;
      }
      cont := SendSection(kernel);
      if !cont {
        return false;
      }
      NextPart();
      fin := ServSend(kernel);
    }
  }

  lemma PartsSplit(hdr: string, body: string, rest: string)
    ensures ([] + ((hdr + body + rest) + SEP_END)) == ([] + hdr) + (body + (rest + SEP_END))
  {
  }

  /** A request for sections of a file, sent in as many goes as there are limits. Whatever the kernel does,
    what has been sent is always a beginning of the response, and it is all of it when the sending is done;
    with a kernel that never refuses, as many calls as the response has bytes are enough. */
  method Deliver(head: string, sects: seq<FileSect>, multi: bool, file: string, ctype: string,
                 limits: seq<nat>, kernel: nat -> nat) returns (sent: string, fin: bool, calls: nat)
    requires AllInFile(sects, file) && sects != [] && (|sects| > 1 ==> multi)
    requires forall i :: 0 <= i < |limits| ==> limits[i] < 256
    ensures var r := Response(head, sects, multi, file, ctype);
      && sent <= r
      && (fin ==> sent == r)
      && ((forall k :: kernel(k) > 0) ==> calls <= |r|)
      && (!fin ==> calls == Total(limits))
    ensures fin ==> ReadBack(sent, head, sects, multi, file, ctype)
  {
    hide Parts, Content, PartHdr, Numeral, Response, AllInFile, ReadBack;
    hide Con.Stream;
    var con := new Con(head, sects, multi, file, ctype);
    ghost var r := Response(head, sects, multi, file, ctype);
    fin := false;
    var i := 0;
    while i < |limits| && !fin
      invariant 0 <= i <= |limits| && con.Valid() && fresh(con) && fresh(con.fs) && con.Stream() == r
      invariant fin ==> con.fsNum == 0 && con.out == []
      invariant (forall k :: kernel(k) > 0) ==> con.calls <= |con.sent|
      invariant !fin ==> con.calls == Total(limits[..i])
    {
      con.ioLimit := limits[i];
      fin := con.ServSend(kernel);
      assert limits[..i + 1][..i] == limits[..i];
      i := i + 1;
    }
    assert limits[..|limits|] == limits;
    con.SentStream();
    ResponseRead(head, sects, multi, file, ctype);
    return con.sent, fin, con.calls;
  }

  /** Sections as the parser of ranges leaves them, and a header with the type of the content. */
  ghost predicate Tellable(sects: seq<FileSect>, file: string, ctype: string) {
    TypeLine(ctype) && forall i :: 0 <= i < |sects| ==> Told(sects[i], file)
  }

  /** What a client makes of a response: all parts with their places in the file, or the bytes of the one
    section. */
  ghost predicate ReadBack(r: string, head: string, sects: seq<FileSect>, multi: bool, file: string, ctype: string)
    requires AllInFile(sects, file) && sects != []
  {
    && head <= r
    && (multi && Tellable(sects, file, ctype) ==> TakeParts(r[|head|..]) == Some(PartsOf(sects, file, ctype)))
    && (!multi ==> r[|head|..] == file[sects[0].off..sects[0].off + sects[0].len])
  }

  lemma ResponseRead(head: string, sects: seq<FileSect>, multi: bool, file: string, ctype: string)
    requires AllInFile(sects, file) && sects != []
    ensures ReadBack(Response(head, sects, multi, file, ctype), head, sects, multi, file, ctype)
  {
    var r := Response(head, sects, multi, file, ctype);
    if multi && Tellable(sects, file, ctype) {
      PartsTaken(sects, file, ctype);
      assert r[|head|..] == Parts(sects, file, ctype) + SEP_END;
    }
  }

  function Total(limits: seq<nat>): nat {
    if limits == [] then 0 else Total(limits[..|limits| - 1]) + limits[|limits| - 1]
  }
}
