/** The initial ramdisk: the archive writer of the build and the kernel's reader of cpio "newc" archives. */
module Cpio {
  import opened Bytes

  const HEADER_SIZE: nat := 110
  const MAGIC: seq<byte> := [48, 55, 48, 55, 48, 49]
  const TRAILER: seq<byte> := [84, 82, 65, 73, 76, 69, 82, 33, 33, 33]
  const SLASH: byte := 47
  const POINT: byte := 46

  datatype Entry = Entry(name: seq<byte>, mode: nat, uid: nat, gid: nat, nlink: nat, data: seq<byte>)

  function Align4(v: nat): (a: nat)
    ensures v <= a < v + 4 && a % 4 == 0
  {
    (v + 3) / 4 * 4
  }

  // Hexadecimal fields

  function HexDigit(n: nat): byte
    requires n < 16
  {
    if n < 10 then 48 + n else 97 + (n - 10)
  }

  /** The last `k` hexadecimal digits of `v`. */
  function Digits(v: nat, k: nat): (s: seq<byte>)
    ensures |s| == k
  {
    if k == 0 then [] else Digits(v / 16, k - 1) + [HexDigit(v % 16)]
  }

  /** `field` */
  function Field(v: nat): (s: seq<byte>)
    ensures |s| == 8
  {
    Digits(v % U32, 8)
  }

  /** `_hex_nibble`; 16 stands for an invalid character. */
  function Nibble(c: byte): (n: nat)
    ensures n <= 16
  {
    if 48 <= c <= 57 then c as int - 48
    else if 97 <= c <= 102 then c as int - 97 + 10
    else if 65 <= c <= 70 then c as int - 65 + 10
    else 16
  }

  predicate AllHex(s: seq<byte>) {
    forall i | 0 <= i < |s| :: Nibble(s[i]) < 16
  }

  function Value(s: seq<byte>): nat {
    if s == [] then 0 else Value(s[..|s| - 1]) * 16 + Nibble(s[|s| - 1])
  }

  function Pow16(k: nat): (p: nat)
    ensures p > 0
  {
    if k == 0 then 1 else 16 * Pow16(k - 1)
  }

  lemma NibbleDigit(n: nat)
    requires n < 16
    ensures Nibble(HexDigit(n)) == n
  {
  }

  lemma {:induction false} ValueDigits(v: nat, k: nat)
    requires v < Pow16(k)
    ensures AllHex(Digits(v, k)) && Value(Digits(v, k)) == v
  {
    if k > 0 {
      ValueDigits(v / 16, k - 1);
      NibbleDigit(v % 16);
      var s := Digits(v, k);
      assert s[..k - 1] == Digits(v / 16, k - 1);
    }
  }

  lemma {:induction false} ValueBound(s: seq<byte>)
    requires AllHex(s)
    ensures Value(s) < Pow16(|s|)
  {
    if s != [] {
      ValueBound(s[..|s| - 1]);
    }
  }

  lemma Pow16Is32()
    ensures Pow16(8) == U32
  {
    assert Pow16(0) == 1 && Pow16(1) == 16 && Pow16(2) == 0x100 && Pow16(3) == 0x1000 && Pow16(4) == 0x1_0000;
    assert Pow16(5) == 0x10_0000 && Pow16(6) == 0x100_0000 && Pow16(7) == 0x1000_0000;
  }

  /** What the writer prints the reader reads. */
  lemma FieldRoundTrip(v: nat)
    requires v < U32
    ensures AllHex(Field(v)) && Value(Field(v)) == v
  {
    hide Pow16, Digits, Value, AllHex;
    Pow16Is32();
    ValueDigits(v, 8);
  }

  /** `_hex8`: the loop of shifts in 32 bits. */
  method Hex8(s: seq<byte>) returns (ok: bool, v: nat)
    requires |s| == 8
    ensures ok <==> AllHex(s)
    ensures ok ==> v == Value(s) < U32
  {
    v := 0;
    for i := 0 to 8
      invariant AllHex(s[..i]) && v == Value(s[..i])
    {
      var n := Nibble(s[i]);
      if n == 16 { return false, 0; }
      assert s[..i + 1][..i] == s[..i];
      v := (v * 16 + n) % U32;
      ValueBound(s[..i + 1]);
      PowGrows(i + 1);
    }
    assert s[..8] == s;
    ValueBound(s);
    Pow16Is32();
    ok := true;
  }

  lemma PowGrows(k: nat)
    requires k <= 8
    ensures Pow16(k) <= U32
  {
    Pow16Is32();
    if k < 8 {
      PowStep(k, 8);
    }
  }

  lemma {:induction false} PowStep(k: nat, m: nat)
    requires k <= m
    ensures Pow16(k) <= Pow16(m)
  {
    if k < m {
      PowStep(k, m - 1);
    }
  }

  // Writing

  function Padded(s: seq<byte>): (p: seq<byte>)
    ensures |p| == Align4(|s|) && s <= p
  {
    s + Zeros(Align4(|s|) - |s|)
  }

  /** The fixed part of an entry. */
  function Header(e: Entry): (h: seq<byte>)
    ensures |h| == HEADER_SIZE
  {
    MAGIC + Field(0) + Field(e.mode) + Field(e.uid) + Field(e.gid) + Field(e.nlink) + Field(0) + Field(|e.data|) +
    Field(0) + Field(0) + Field(0) + Field(0) + Field(|e.name| + 1) + Field(0)
  }

  /** What `write_entry` makes of the output so far. */
  function Written(out: seq<byte>, e: Entry): seq<byte> {
    Padded(Padded(out + Header(e) + e.name + [0]) + e.data)
  }

  const END_ENTRY: Entry := Entry(TRAILER, 0, 0, 0, 1, [])

  function Archive(out: seq<byte>, es: seq<Entry>): seq<byte>
    decreases |es|
  {
    if es == [] then Written(out, END_ENTRY) else Archive(Written(out, es[0]), es[1..])
  }

  /** `pad4` */
  method Pad4(s: seq<byte>) returns (p: seq<byte>)
    ensures p == Padded(s)
  {
    p := s;
    while |p| != Align4(|p|)
      invariant |s| <= |p| <= Align4(|s|) && p == s + Zeros(|p| - |s|)
      decreases Align4(|s|) - |p|
    {
      SameAlign(|s|, |p|);
      p := p + [0];
    }
    SameAlign(|s|, |p|);
  }

  lemma SameAlign(a: nat, b: nat)
    requires a <= b <= Align4(a)
    ensures Align4(b) == Align4(a)
  {
  }

  /** `write_entry` */
  method WriteEntry(out: seq<byte>, e: Entry) returns (out': seq<byte>)
    ensures out' == Written(out, e)
  {
    out' := out + Header(e);
    out' := out' + (e.name + [0]);
    assert out' == out + Header(e) + e.name + [0];
    out' := Pad4(out');
    out' := out' + e.data;
    out' := Pad4(out');
  }

  /** The loop of `main`, with its trailer. */
  method WriteArchive(es: seq<Entry>) returns (out: seq<byte>)
    ensures out == Archive([], es)
  {
    out := [];
    for i := 0 to |es|
      invariant Archive(out, es[i..]) == Archive([], es)
    {
      out := WriteEntry(out, es[i]);
      assert es[i..][1..] == es[i + 1..];
    }
    assert es[|es|..] == [];
    out := WriteEntry(out, END_ENTRY);
  }

  // Reading

  datatype Event =
    | Parent(path: seq<byte>)
    | Dir(path: seq<byte>, perm: nat, uid: nat, gid: nat)
    | File(path: seq<byte>, perm: nat, uid: nat, gid: nat, data: seq<byte>)

  datatype Parsed = Bad | End | Item(name: seq<byte>, mode: nat, uid: nat, gid: nat, data: seq<byte>, next: nat)

  /** What has been extracted; `ok` if the trailer was reached. */
  datatype Outcome = Outcome(ok: bool, events: seq<Event>, entries: nat)

  predicate IsDir(mode: nat) { mode / 0x1000 % 16 == 4 }

  predicate IsReg(mode: nat) { mode / 0x1000 % 16 == 8 }

  /** The bytes up to the first NUL. */
  function CString(s: seq<byte>): seq<byte> {
    if s == [] || s[0] == 0 then [] else [s[0]] + CString(s[1..])
  }

  /** `_clean_name` */
  function CleanName(n: seq<byte>): (r: seq<byte>)
    ensures |r| <= |n|
  {
    if |n| >= 2 && n[0] == POINT && n[1] == SLASH then CleanName(n[2..]) else StripSlashes(n)
  }

  function StripSlashes(n: seq<byte>): (r: seq<byte>)
    ensures |r| <= |n|
  {
    if n != [] && n[0] == SLASH then StripSlashes(n[1..]) else n
  }

  /** `_ensure_parent_dirs`: one directory for each slash past the first byte, here up to `n`. */
  function Parents(path: seq<byte>, n: nat): seq<Event>
    requires n <= |path|
  {
    if n <= 1 then [] else Parents(path, n - 1) + if path[n - 1] == SLASH then [Parent(path[..n - 1])] else []
  }

  function Effects(path: seq<byte>, mode: nat, uid: nat, gid: nat, data: seq<byte>): seq<Event> {
    Parents(path, |path|) +
    if IsDir(mode) then [Dir(path, mode % 0x1000, uid, gid)]
    else if IsReg(mode) then [File(path, mode % 0x1000, uid, gid, data)] else []
  }

  /** One header with its name and data, read at offset `off`. */
  function ParseAt(a: seq<byte>, off: nat): (r: Parsed)
    requires off + HEADER_SIZE <= |a|
    ensures r.Item? ==> r.next > off
  {
    var mode, uid, gid, size, nsize := a[off + 14..off + 22], a[off + 22..off + 30], a[off + 30..off + 38], a[off + 54..off + 62], a[off + 94..off + 102];
    if a[off..off + 6] != MAGIC || !AllHex(mode) || !AllHex(uid) || !AllHex(gid) || !AllHex(size) || !AllHex(nsize) then Bad
    else if Value(nsize) == 0 || off + HEADER_SIZE + Value(nsize) > |a| then Bad
    else ParseBody(a, off + HEADER_SIZE, Value(nsize), Value(mode), Value(uid), Value(gid), Value(size))
  }

  function ParseBody(a: seq<byte>, at: nat, nsize: nat, mode: nat, uid: nat, gid: nat, size: nat): (r: Parsed)
    requires 0 < nsize && at + nsize <= |a|
    ensures r.Item? ==> r.next > at
  {
    var body := Align4(at + nsize);
    if a[at + nsize - 1] != 0 || body > |a| || body + size > |a| then Bad
    else
      var name := CString(a[at..at + nsize]);
      if name == TRAILER then End else Item(name, mode, uid, gid, a[body..body + size], Align4(body + size))
  }

  function Extracted(a: seq<byte>, off: nat): (o: Outcome)
    ensures !o.ok ==> o.entries == 0
    decreases |a| - off
  {
    if off + HEADER_SIZE > |a| then Outcome(false, [], 0)
    else match ParseAt(a, off)
      case Bad => Outcome(false, [], 0)
      case End => Outcome(true, [], 0)
      case Item(name, mode, uid, gid, data, next) =>
        if CleanName(name) == [] then Outcome(false, [], 0)
        else
          var rest := if next + HEADER_SIZE <= |a| then Extracted(a, next) else Outcome(false, [], 0);
          Before(Effects([SLASH] + CleanName(name), mode, uid, gid, data), if IsDir(mode) || IsReg(mode) then 1 else 0, rest)
  }

  function Before(events: seq<Event>, n: nat, o: Outcome): Outcome {
    Outcome(o.ok, events + o.events, if o.ok then n + o.entries else 0)
  }

  // The round trip

  /** Entries both sides can carry. */
  predicate Carried(e: Entry) {
    && e.name != [] && 0 !in e.name && e.name != TRAILER && e.name[0] != SLASH
    && (|e.name| >= 2 ==> !(e.name[0] == POINT && e.name[1] == SLASH))
    && |e.name| + 1 < U32 && |e.data| < U32 && e.mode < U32 && e.uid < U32 && e.gid < U32
    && (IsReg(e.mode) || (IsDir(e.mode) && e.data == []))
  }

  /** The directory or file that an entry stands for: its name below the root, the low twelve bits of its mode, its owner
      and group, and for a regular file exactly its bytes. Bits 12 to 15 of the mode are 4 for a directory. */
  function Unpacked(e: Entry): Event {
    if e.mode / 0x1000 % 16 == 4 then Dir([SLASH] + e.name, e.mode % 0x1000, e.uid, e.gid)
    else File([SLASH] + e.name, e.mode % 0x1000, e.uid, e.gid, e.data)
  }

  /** A parent for each part of the path that ends before a slash among the first `n` bytes, shortest first, and no other
      event. `at` are the positions of these slashes. */
  ghost predicate ParentsAt(events: seq<Event>, path: seq<byte>, n: nat, at: seq<nat>)
    requires n <= |path|
  {
    && |events| == |at|
    && (forall k | 0 <= k < |at| :: 0 < at[k] < n && path[at[k]] == SLASH && events[k] == Parent(path[..at[k]]))
    && (forall j, k | 0 <= j < k < |at| :: at[j] < at[k])
    && (forall q | 0 < q < n && path[q] == SLASH :: q in at)
  }

  ghost predicate AllParents(events: seq<Event>, path: seq<byte>) {
    exists at :: ParentsAt(events, path, |path|, at)
  }

  /** The parents of a path, and then what stands there. */
  ghost predicate Makes(events: seq<Event>, path: seq<byte>, last: Event) {
    events != [] && events[|events| - 1] == last && AllParents(events[..|events| - 1], path)
  }

  function Joined(parts: seq<seq<Event>>): seq<Event> {
    if parts == [] then [] else parts[0] + Joined(parts[1..])
  }

  /** What was made, without the parents. */
  function Results(events: seq<Event>): seq<Event> {
    if events == [] then [] else (if events[0].Parent? then [] else [events[0]]) + Results(events[1..])
  }

  lemma {:induction false} ParentsAre(path: seq<byte>, n: nat) returns (at: seq<nat>)
    requires n <= |path|
    ensures ParentsAt(Parents(path, n), path, n, at)
    decreases n
  {
    if n <= 1 {
      at := [];
    } else {
      at := ParentsAre(path, n - 1);
      NextParent(path, n - 1, Parents(path, n - 1), at);
      if path[n - 1] == SLASH {
        at := at + [n - 1];
      }
    }
  }

  lemma NextParent(path: seq<byte>, n: nat, ps: seq<Event>, at: seq<nat>)
    requires 0 < n < |path| && ParentsAt(ps, path, n, at)
    ensures path[n] == SLASH ==> ParentsAt(ps + [Parent(path[..n])], path, n + 1, at + [n])
    ensures path[n] != SLASH ==> ParentsAt(ps, path, n + 1, at)
  {
    if path[n] == SLASH {
      forall q | 0 < q < n + 1 && path[q] == SLASH
        ensures q in at + [n]
      {
        assert q == n ==> (at + [n])[|at|] == q;
      }
    }
  }

  /** Whatever an archive holds: an item of the kind of a directory or a regular file makes its parents and itself, any
      other only its parents. */
  lemma ItemMakes(path: seq<byte>, mode: nat, uid: nat, gid: nat, data: seq<byte>)
    ensures var ev := Effects(path, mode, uid, gid, data);
            match mode / 0x1000 % 16
            case 4 => Makes(ev, path, Dir(path, mode % 0x1000, uid, gid))
            case 8 => Makes(ev, path, File(path, mode % 0x1000, uid, gid, data))
            case _ => AllParents(ev, path)
  {
    hide Parents, ParentsAt;
    var ev, ps := Effects(path, mode, uid, gid, data), Parents(path, |path|);
    var at := ParentsAre(path, |path|);
    assert AllParents(ps, path);
    if IsDir(mode) || IsReg(mode) {
      assert ev[..|ev| - 1] == ps;
    } else {
      assert ev == ps;
    }
  }

  lemma {:induction false} OnlyParents(events: seq<Event>, last: Event)
    requires (forall k | 0 <= k < |events| :: events[k].Parent?) && !last.Parent?
    ensures Results(events + [last]) == [last]
  {
    if events == [] {
      assert Results([last][1..]) == [];
    } else {
      OnlyParents(events[1..], last);
      assert (events + [last])[1..] == events[1..] + [last];
    }
  }

  lemma ResultsFirst(a: seq<Event>)
    requires a != []
    ensures Results(a) == (if a[0].Parent? then [] else [a[0]]) + Results(a[1..])
  {
  }

  lemma {:induction false} ResultsAppend(a: seq<Event>, b: seq<Event>)
    ensures Results(a + b) == Results(a) + Results(b)
  {
    if a == [] {
      assert a + b == b;
    } else {
      ResultsAppend(a[1..], b);
      assert (a + b)[1..] == a[1..] + b && (a + b)[0] == a[0];
      hide Results;
      assert Results(a + b) == (if a[0].Parent? then [] else [a[0]]) + Results(a[1..] + b) by { ResultsFirst(a + b); }
      assert Results(a) == (if a[0].Parent? then [] else [a[0]]) + Results(a[1..]) by { ResultsFirst(a); }
    }
  }

  lemma MakesOne(events: seq<Event>, path: seq<byte>, last: Event)
    requires Makes(events, path, last) && !last.Parent?
    ensures Results(events) == [last]
  {
    var at :| ParentsAt(events[..|events| - 1], path, |path|, at);
    OnlyParents(events[..|events| - 1], last);
    assert events == events[..|events| - 1] + [last];
  }

  lemma {:induction false} CStringOf(name: seq<byte>, tail: seq<byte>)
    requires 0 !in name
    ensures CString(name + [0] + tail) == name
  {
    if name != [] {
      CStringOf(name[1..], tail);
      assert (name + [0] + tail)[1..] == name[1..] + [0] + tail;
    }
  }

  lemma HeaderFields(e: Entry)
    ensures var h := Header(e);
            && h[0..6] == MAGIC && h[14..22] == Field(e.mode) && h[22..30] == Field(e.uid) && h[30..38] == Field(e.gid)
            && h[54..62] == Field(|e.data|) && h[94..102] == Field(|e.name| + 1)
  {
  }

  predicate Printable(e: Entry) {
    0 !in e.name && |e.name| + 1 < U32 && |e.data| < U32 && e.mode < U32 && e.uid < U32 && e.gid < U32
  }

  /** Where the parts of an entry stand: reader and writer agree on the padding at every offset. */
  lemma Layout(out: seq<byte>, e: Entry, rest: seq<byte>)
    ensures var a, at := Written(out, e) + rest, |out| + HEADER_SIZE;
            var body := Align4(at + |e.name| + 1);
            && body + |e.data| <= |Written(out, e)| == Align4(body + |e.data|)
            && a[|out|..at] == Header(e) && a[at..at + |e.name| + 1] == e.name + [0] && a[body..body + |e.data|] == e.data
  {
    hide Header, Padded, Align4;
    var front := out + Header(e) + e.name + [0];
    var p := Padded(front);
    var w := Padded(p + e.data);
    Inside(p, e.data, w, rest);
    Inside(out + Header(e), e.name + [0], front, []);
    Inside(out, Header(e), front, []);
    assert front + [] == front == out + Header(e) + (e.name + [0]);
    PrefixSlice(front, w + rest, |out|, |out| + HEADER_SIZE);
    PrefixSlice(front, w + rest, |out| + HEADER_SIZE, |front|);
  }

  lemma Inside(x: seq<byte>, y: seq<byte>, w: seq<byte>, rest: seq<byte>)
    requires x + y <= w
    ensures (w + rest)[|x|..|x| + |y|] == y && x <= w + rest
  {
    assert w[|x|..|x| + |y|] == (x + y)[|x|..|x| + |y|];
  }

  lemma PrefixSlice(p: seq<byte>, a: seq<byte>, i: nat, j: nat)
    requires p <= a && i <= j <= |p|
    ensures a[i..j] == p[i..j]
  {
  }

  lemma FieldAt(a: seq<byte>, off: nat, h: seq<byte>, i: nat, v: nat)
    requires off + |h| <= |a| && a[off..off + |h|] == h && i + 8 <= |h| && h[i..i + 8] == Field(v) && v < U32
    ensures AllHex(a[off + i..off + i + 8]) && Value(a[off + i..off + i + 8]) == v
  {
    Within(a, off, h, i, i + 8);
    FieldRoundTrip(v);
  }

  lemma ParseWritten(out: seq<byte>, e: Entry, rest: seq<byte>)
    requires Printable(e)
    ensures var a := Written(out, e) + rest;
            && |out| + HEADER_SIZE <= |a|
            && ParseAt(a, |out|) == if e.name == TRAILER then End else Item(e.name, e.mode, e.uid, e.gid, e.data, |Written(out, e)|)
  {
    var a, off, h := Written(out, e) + rest, |out|, Header(e);
    Layout(out, e, rest);
    HeaderFields(e);
    hide Written, Header, Field, Value, AllHex, ParseBody, Align4;
    Within(a, off, h, 0, 6);
    FieldAt(a, off, h, 14, e.mode);
    FieldAt(a, off, h, 22, e.uid);
    FieldAt(a, off, h, 30, e.gid);
    FieldAt(a, off, h, 54, |e.data|);
    FieldAt(a, off, h, 94, |e.name| + 1);
    BodyWritten(a, off + HEADER_SIZE, e);
  }

  lemma BodyWritten(a: seq<byte>, at: nat, e: Entry)
    requires 0 !in e.name && at + |e.name| + 1 <= |a| && a[at..at + |e.name| + 1] == e.name + [0]
    requires var body := Align4(at + |e.name| + 1); body + |e.data| <= |a| && a[body..body + |e.data|] == e.data
    ensures ParseBody(a, at, |e.name| + 1, e.mode, e.uid, e.gid, |e.data|) ==
            if e.name == TRAILER then End
            else Item(e.name, e.mode, e.uid, e.gid, e.data, Align4(Align4(at + |e.name| + 1) + |e.data|))
  {
    var n := |e.name| + 1;
    assert a[at + n - 1] == a[at..at + n][n - 1] == 0;
    CStringOf(e.name, []);
    assert e.name + [0] + [] == e.name + [0];
  }

  lemma {:induction false} ArchiveExtends(out: seq<byte>, es: seq<Entry>)
    ensures out <= Archive(out, es)
    decreases |es|
  {
    if es == [] {
      WrittenExtends(out, END_ENTRY);
    } else {
      WrittenExtends(out, es[0]);
      ArchiveExtends(Written(out, es[0]), es[1..]);
    }
  }

  lemma WrittenExtends(out: seq<byte>, e: Entry)
    ensures out <= Written(out, e)
  {
  }

  /** Some number of "./", then some number of "/". */
  function Lead(dots: nat, slashes: nat): seq<byte> {
    if dots > 0 then [POINT, SLASH] + Lead(dots - 1, slashes) else seq(slashes, _ => SLASH)
  }

  /** The name loses every leading "./" and then every leading "/", and nothing else. */
  lemma {:induction false} CleanMeans(n: seq<byte>) returns (dots: nat, slashes: nat)
    ensures n == Lead(dots, slashes) + CleanName(n)
    ensures CleanName(n) == [] || CleanName(n)[0] != SLASH
    ensures slashes == 0 && |CleanName(n)| >= 2 ==> CleanName(n)[..2] != [POINT, SLASH]
  {
    if |n| >= 2 && n[0] == POINT && n[1] == SLASH {
      dots, slashes := CleanMeans(n[2..]);
      dots := dots + 1;
      assert n == [POINT, SLASH] + n[2..];
    } else {
      dots := 0;
      slashes := StripMeans(n);
    }
  }

  lemma {:induction false} StripMeans(n: seq<byte>) returns (slashes: nat)
    ensures n == seq(slashes, _ => SLASH) + StripSlashes(n)
    ensures StripSlashes(n) == [] || StripSlashes(n)[0] != SLASH
  {
    if n != [] && n[0] == SLASH {
      slashes := StripMeans(n[1..]);
      slashes := slashes + 1;
      assert n == [SLASH] + n[1..];
      assert seq(slashes, _ => SLASH) == [SLASH] + seq(slashes - 1, _ => SLASH);
    } else {
      slashes := 0;
    }
  }

  /** Digits count from the most significant one. */
  lemma Positional(s: seq<byte>)
    requires |s| == 8
    ensures Value(s) == Nibble(s[0]) * 0x1000_0000 + Nibble(s[1]) * 0x100_0000 + Nibble(s[2]) * 0x10_0000 + Nibble(s[3]) * 0x1_0000 +
                        Nibble(s[4]) * 0x1000 + Nibble(s[5]) * 0x100 + Nibble(s[6]) * 0x10 + Nibble(s[7])
  {
    forall k | 0 <= k < 8
      ensures Value(s[..k + 1]) == Value(s[..k]) * 16 + Nibble(s[k])
    {
      assert s[..k + 1][..k] == s[..k];
    }
    assert s[..8] == s;
    hide Value, Nibble;
    assert Value(s[..0]) == 0 by { EmptyValue(s[..0]); }
    assert Value(s[..1]) == Value(s[..0]) * 16 + Nibble(s[0]);
    assert Value(s[..2]) == Value(s[..1]) * 16 + Nibble(s[1]);
    assert Value(s[..3]) == Value(s[..2]) * 16 + Nibble(s[2]);
    assert Value(s[..4]) == Value(s[..3]) * 16 + Nibble(s[3]);
    assert Value(s[..5]) == Value(s[..4]) * 16 + Nibble(s[4]);
    assert Value(s[..6]) == Value(s[..5]) * 16 + Nibble(s[5]);
    assert Value(s[..7]) == Value(s[..6]) * 16 + Nibble(s[6]);
  }

  lemma EmptyValue(s: seq<byte>)
    requires s == []
    ensures Value(s) == 0
  {
  }

  lemma CleanCarried(e: Entry)
    requires Carried(e)
    ensures CleanName(e.name) == e.name
  {
  }

  /** Extracting a written archive gives exactly its entries, in order, and their number: for each entry the parents of
      its path, and then the entry itself. */
  lemma {:induction false} RoundTrip(out: seq<byte>, es: seq<Entry>) returns (parts: seq<seq<Event>>)
    requires forall i | 0 <= i < |es| :: Carried(es[i])
    ensures Extracted(Archive(out, es), |out|) == Outcome(true, Joined(parts), |es|)
    ensures |parts| == |es| && forall i | 0 <= i < |es| :: Makes(parts[i], [SLASH] + es[i].name, Unpacked(es[i]))
    ensures Results(Joined(parts)) == seq(|es|, i requires 0 <= i < |es| => Unpacked(es[i]))
    decreases |es|
  {
    hide Written, ParseAt, CleanName, Effects, Makes, Unpacked;
    var a := Archive(out, es);
    ArchiveExtends(out, es);
    if es == [] {
      ParseWritten(out, END_ENTRY, []);
      assert Written(out, END_ENTRY) + [] == a;
      parts := [];
    } else {
      var w, e := Written(out, es[0]), es[0];
      ArchiveExtends(w, es[1..]);
      ParseWritten(out, e, a[|w|..]);
      assert w + a[|w|..] == a;
      CleanCarried(e);
      var more := RoundTrip(w, es[1..]);
      HasRoom(w, es[1..]);
      EntryMakes(e);
      var first := Effects([SLASH] + e.name, e.mode, e.uid, e.gid, e.data);
      parts := [first] + more;
      JoinedFirst(first, more);
      ResultsAppend(first, Joined(more));
      forall i | 0 <= i < |es|
        ensures Makes(parts[i], [SLASH] + es[i].name, Unpacked(es[i]))
      {
        assert i > 0 ==> es[1..][i - 1] == es[i] && parts[i] == more[i - 1];
      }
      assert seq(|es|, i requires 0 <= i < |es| => Unpacked(es[i])) ==
             [Unpacked(e)] + seq(|es[1..]|, i requires 0 <= i < |es[1..]| => Unpacked(es[1..][i]));
    }
  }

  lemma JoinedFirst(first: seq<Event>, more: seq<seq<Event>>)
    ensures Joined([first] + more) == first + Joined(more)
  {
    assert ([first] + more)[1..] == more;
  }

  lemma EntryMakes(e: Entry)
    requires Carried(e)
    ensures var ev := Effects([SLASH] + e.name, e.mode, e.uid, e.gid, e.data);
            Makes(ev, [SLASH] + e.name, Unpacked(e)) && Results(ev) == [Unpacked(e)]
  {
    hide Effects, Makes;
    ItemMakes([SLASH] + e.name, e.mode, e.uid, e.gid, e.data);
    MakesOne(Effects([SLASH] + e.name, e.mode, e.uid, e.gid, e.data), [SLASH] + e.name, Unpacked(e));
  }

  /** There is always another header. */
  lemma HasRoom(out: seq<byte>, es: seq<Entry>)
    ensures |out| + HEADER_SIZE <= |Archive(out, es)|
  {
    var e := if es == [] then END_ENTRY else es[0];
    Layout(out, e, []);
    if es != [] {
      ArchiveExtends(Written(out, es[0]), es[1..]);
    }
  }

  // The reader as it runs

  method Clean(name: seq<byte>) returns (n: seq<byte>)
    ensures n == CleanName(name)
  {
    n := name;
    while |n| >= 2 && n[0] == POINT && n[1] == SLASH
      invariant CleanName(n) == CleanName(name)
    {
      n := n[2..];
    }
    while n != [] && n[0] == SLASH
      invariant StripSlashes(n) == CleanName(name)
    {
      n := n[1..];
    }
  }

  /** `_ensure_parent_dirs`; the file system takes `room` more calls before one fails. */
  method EnsureParentDirs(path: seq<byte>, room: nat) returns (ok: bool, events: seq<Event>)
    ensures var all := Parents(path, |path|);
            (ok <==> |all| <= room) && events == if ok then all else all[..room]
  {
    hide Parents;
    events := [];
    ParentsNext(path, 0);
    if |path| < 2 {
      return true, [];
    }
    for i := 1 to |path|
      invariant events == Parents(path, i) && |events| <= room
    {
      ParentsNext(path, i);
      if path[i] == SLASH {
        if |events| == room {
          ParentsPrefix(path, i, |path|);
          ParentsPrefix(path, i + 1, |path|);
          return false, events;
        }
        events := events + [Parent(path[..i])];
      }
    }
    ok := true;
  }

  lemma ParentsNext(path: seq<byte>, i: nat)
    ensures |path| <= 1 ==> Parents(path, |path|) == []
    ensures 1 <= |path| ==> Parents(path, 1) == []
    ensures 1 <= i < |path| ==> Parents(path, i + 1) == Parents(path, i) + if path[i] == SLASH then [Parent(path[..i])] else []
  {
  }

  lemma {:induction false} ParentsPrefix(path: seq<byte>, i: nat, n: nat)
    requires 1 <= i <= n <= |path|
    ensures Parents(path, i) <= Parents(path, n)
    decreases n
  {
    if i < n {
      ParentsPrefix(path, i, n - 1);
    }
  }

  /** The fields of one header; a record of `Bad` stops the extraction. */
  method ReadHeader(a: seq<byte>, off: nat) returns (r: Parsed)
    requires off + HEADER_SIZE <= |a|
    ensures r == ParseAt(a, off)
  {
    hide AllHex, Value, CString;
    if a[off..off + 6] != MAGIC { return Bad; }
    var ok, mode := Hex8(a[off + 14..off + 22]);
    if !ok { return Bad; }
    var uid;
    ok, uid := Hex8(a[off + 22..off + 30]);
    if !ok { return Bad; }
    var gid;
    ok, gid := Hex8(a[off + 30..off + 38]);
    if !ok { return Bad; }
    var size;
    ok, size := Hex8(a[off + 54..off + 62]);
    if !ok { return Bad; }
    var nsize;
    ok, nsize := Hex8(a[off + 94..off + 102]);
    if !ok || nsize == 0 { return Bad; }
    var at := off + HEADER_SIZE;
    if at + nsize > |a| { return Bad; }
    if a[at + nsize - 1] != 0 { return Bad; }
    var body := Align4(at + nsize);
    if body > |a| || body + size > |a| { return Bad; }
    var name := CString(a[at..at + nsize]);
    if name == TRAILER { return End; }
    r := Item(name, mode, uid, gid, a[body..body + size], Align4(body + size));
  }

  /** An extraction in which every call after the first `room` to the file system fails: it stops there. */
  function Stopped(o: Outcome, room: nat): Outcome {
    if room < |o.events| then Outcome(false, o.events[..room], 0) else o
  }

  /** `cpio_newc_extract` with the effects on the file system as a list, of which only the first `room` succeed. */
  method Extract(a: seq<byte>, room: nat) returns (o: Outcome)
    ensures o == Stopped(Extracted(a, 0), room)
  {
    hide ParseAt, CleanName, Parents, Extracted;
    var off, entries, events := 0, 0, [];
    while off + HEADER_SIZE <= |a|
      invariant Before(events, entries, Extracted(a, off)) == Extracted(a, 0) && |events| <= room
      decreases |a| - off
    {
      ExtractedAt(a, off);
      var r := ReadHeader(a, off);
      if r.Bad? { return Outcome(false, events, 0); }
      if r.End? { return Outcome(true, events, entries); }
      var name := Clean(r.name);
      if name == [] { return Outcome(false, events, 0); }
      var path := [SLASH] + name;
      ghost var all := Effects(path, r.mode, r.uid, r.gid, r.data);
      var n := if IsDir(r.mode) || IsReg(r.mode) then 1 else 0;
      Resume(events, entries, all, n, Extracted(a, r.next));
      var ok, effects := EnsureParentDirs(path, room - |events|);
      if ok && n > 0 {
        if |events + effects| == room {
          ok := false;
        } else {
          effects := effects + [if IsDir(r.mode) then Dir(path, r.mode % 0x1000, r.uid, r.gid)
                                else File(path, r.mode % 0x1000, r.uid, r.gid, r.data)];
        }
      }
      if !ok {
        assert |events + effects| == room && effects == all[..|effects|] && |effects| < |all|;
        assert Extracted(a, 0).events[..room] == events + effects;
        return Outcome(false, events + effects, 0);
      }
      assert effects == all;
      events, entries, off := events + effects, entries + n, r.next;
    }
    ExtractedAt(a, off);
    o := Outcome(false, events, 0);
  }

  lemma ExtractedAt(a: seq<byte>, off: nat)
    ensures off + HEADER_SIZE > |a| ==> Extracted(a, off) == Outcome(false, [], 0)
    ensures off + HEADER_SIZE <= |a| ==>
              match ParseAt(a, off)
              case Bad => Extracted(a, off) == Outcome(false, [], 0)
              case End => Extracted(a, off) == Outcome(true, [], 0)
              case Item(name, mode, uid, gid, data, next) =>
                var effects := Effects([SLASH] + CleanName(name), mode, uid, gid, data);
                Extracted(a, off) == if CleanName(name) == [] then Outcome(false, [], 0)
                                     else Before(effects, if IsDir(mode) || IsReg(mode) then 1 else 0, Extracted(a, next))
  {
    hide ParseAt, CleanName, Effects;
  }

  lemma Resume(ev: seq<Event>, k: nat, ev': seq<Event>, n: nat, rest: Outcome)
    ensures Before(ev, k, Before(ev', n, rest)) == Before(ev + ev', k + n, rest)
  {
  }

  /** From entries to archive to file system: everything is back, in order, up to the first call that fails. */
  method PackAndUnpack(es: seq<Entry>, room: nat) returns (o: Outcome, ghost parts: seq<seq<Event>>)
    requires forall i | 0 <= i < |es| :: Carried(es[i])
    ensures o == Stopped(Outcome(true, Joined(parts), |es|), room)
    ensures |parts| == |es| && forall i | 0 <= i < |es| :: Makes(parts[i], [SLASH] + es[i].name, Unpacked(es[i]))
    ensures o.ok ==> o.entries == |es| && Results(o.events) == seq(|es|, i requires 0 <= i < |es| => Unpacked(es[i]))
  {
    hide Written, ParseAt, Effects, Makes, Unpacked, Extracted, Archive;
    var a := WriteArchive(es);
    o := Extract(a, room);
    parts := RoundTrip([], es);
  }

  /** A name ends before its first NUL. */
  lemma {:induction false} CStringMeans(s: seq<byte>)
    ensures CString(s) <= s && 0 !in CString(s) && (CString(s) == s || s[|CString(s)|] == 0)
  {
    if s != [] && s[0] != 0 {
      CStringMeans(s[1..]);
      assert s == [s[0]] + s[1..];
    }
  }
}
