/** The ustar reader of bootstrap.c, against a writer of archives in the ustar interchange format
    (IEEE Std 1003.1, pax, "ustar Interchange Format"). */
module Ustar {
  import opened Riscv
  import opened Wrappers

  // ---------------------------------------------------------------- C strings

  predicate Terminated(a: seq<Byte>, i: nat) {
    i < |a| && exists k :: i <= k < |a| && a[k] == 0
  }

  /** The bytes from i up to the first NUL. */
  function CString(a: seq<Byte>, i: nat): (s: seq<Byte>)
    requires i <= |a|
    ensures i + |s| <= |a| && s == a[i..i + |s|] && 0 !in s && (i + |s| < |a| ==> a[i + |s|] == 0)
    decreases |a| - i
  {
    if i == |a| || a[i] == 0 then [] else [a[i]] + CString(a, i + 1)
  }

  /** Two strings that start with the same byte are equal if it ends both, or if the rest is equal. */
  lemma SameFirst(a: seq<Byte>, i: nat, b: seq<Byte>, j: nat)
    requires i < |a| && j < |b| && a[i] == b[j]
    ensures CString(a, i) == CString(b, j) <==> a[i] == 0 || CString(a, i + 1) == CString(b, j + 1)
  {
    if a[i] != 0 {
      var x, y := CString(a, i + 1), CString(b, j + 1);
      assert ([a[i]] + x)[1..] == x && ([b[j]] + y)[1..] == y;
    }
  }

  lemma FirstDiffers(a: seq<Byte>, i: nat, b: seq<Byte>, j: nat)
    requires i < |a| && j < |b| && a[i] != b[j]
    ensures CString(a, i) != CString(b, j)
  {
  }

  /** The strings agree before place k, which both have. */
  predicate AgreeUpTo(a: seq<Byte>, i0: nat, b: seq<Byte>, k: nat) {
    i0 + k < |a| && k < |b| && a[i0..i0 + k] == b[..k]
  }

  /** A place that agrees and ends neither string has a next place. */
  lemma NextPlace(a: seq<Byte>, i0: nat, b: seq<Byte>, k: nat)
    requires AgreeUpTo(a, i0, b, k) && a[i0 + k] == b[k] != 0 && Terminated(a, i0 + k) && Terminated(b, k)
    ensures AgreeUpTo(a, i0, b, k + 1) && Terminated(a, i0 + k + 1) && Terminated(b, k + 1)
  {
    assert a[i0..i0 + k + 1] == a[i0..i0 + k] + [a[i0 + k]] && b[..k + 1] == b[..k] + [b[k]];
  }

  /** strcmp (common.c): zero exactly for equal strings, else the difference at the first place where they differ. */
  method Strcmp(a: seq<Byte>, i0: nat, b: seq<Byte>) returns (r: int)
    requires Terminated(a, i0) && Terminated(b, 0)
    ensures r == 0 <==> CString(a, i0) == CString(b, 0)
    ensures r != 0 ==> exists k: nat :: AgreeUpTo(a, i0, b, k) && r == a[i0 + k] as int - b[k] as int
  {
    hide CString, Terminated;
    var i := 0;
    StringStart(a, i0, b);
    while a[i0 + i] == b[i]
      invariant 0 <= i && AgreeUpTo(a, i0, b, i) && Terminated(a, i0 + i) && Terminated(b, i)
      invariant CString(a, i0) == CString(b, 0) <==> CString(a, i0 + i) == CString(b, i)
      decreases |b| - i
    {
      SameFirst(a, i0 + i, b, i);
      if a[i0 + i] == 0 && b[i] == 0 { return 0; }
      NextPlace(a, i0, b, i);
      i := i + 1;
    }
    FirstDiffers(a, i0 + i, b, i);
    r := a[i0 + i] as int - b[i] as int;
  }

  lemma StringStart(a: seq<Byte>, i0: nat, b: seq<Byte>)
    requires Terminated(a, i0) && Terminated(b, 0)
    ensures AgreeUpTo(a, i0, b, 0)
  {
  }

  // ---------------------------------------------------------------- octal fields

  predicate IsOctal(c: Byte) {
    48 <= c <= 55
  }

  /** How many octal digits a field starts with. */
  function OctalRun(f: seq<Byte>): (n: nat)
    ensures n <= |f| && (forall i :: 0 <= i < n ==> IsOctal(f[i])) && (n < |f| ==> !IsOctal(f[n]))
  {
    if f == [] || !IsOctal(f[0]) then 0 else 1 + OctalRun(f[1..])
  }

  function OctalValue(digits: seq<Byte>): nat
    requires forall i :: 0 <= i < |digits| ==> IsOctal(digits[i])
  {
    if digits == [] then 0
    else
      assert IsOctal(digits[|digits| - 1]);
      OctalValue(digits[..|digits| - 1]) * 8 + (digits[|digits| - 1] - 48)
  }

  /** The number a field denotes: its longest prefix of octal digits. */
  function FieldValue(f: seq<Byte>): nat {
    OctalValue(f[..OctalRun(f)])
  }

  lemma {:induction false} OctalPrefix(digits: seq<Byte>, k: nat)
    requires k <= |digits| && forall i :: 0 <= i < |digits| ==> IsOctal(digits[i])
    ensures OctalValue(digits[..k]) <= OctalValue(digits)
    decreases |digits|
  {
    if k < |digits| {
      OctalPrefix(digits[..|digits| - 1], k);
      assert digits[..|digits| - 1][..k] == digits[..k];
    } else {
      assert digits[..k] == digits;
    }
  }

  /** oct2int: reads a field of `len` bytes; the C int does not overflow. */
  method Oct2Int(a: seq<Byte>, off: nat, len: nat) returns (dec: nat)
    requires off + len <= |a| && FieldValue(a[off..off + len]) < 0x8000_0000
    ensures dec == FieldValue(a[off..off + len])
  {
    ghost var f := a[off..off + len];
    dec := 0;
    var i := 0;
    while i < len
      invariant 0 <= i <= OctalRun(f) && i <= len && dec == OctalValue(f[..i])
    {
      assert a[off + i] == f[i];
      if a[off + i] < 48 || a[off + i] > 55 {
        break;
      }
      assert f[..i + 1][..i] == f[..i];
      OctalPrefix(f[..OctalRun(f)], i + 1);
      assert f[..OctalRun(f)][..i + 1] == f[..i + 1];
      dec := dec * 8 + (a[off + i] as int - 48);
      assert dec < 0x8000_0000;   // fits the int
      i := i + 1;
    }
    assert i == OctalRun(f);
  }

  /** n in w octal digits, zero-filled. */
  function OctalDigits(n: nat, w: nat): (d: seq<Byte>)
    ensures |d| == w && forall i :: 0 <= i < w ==> IsOctal(d[i])
  {
    if w == 0 then [] else OctalDigits(n / 8, w - 1) + [48 + n % 8]
  }

  function Pow8(w: nat): nat {
    if w == 0 then 1 else 8 * Pow8(w - 1)
  }

  lemma {:induction false} OctalInverse(n: nat, w: nat)
    requires n < Pow8(w)
    ensures OctalValue(OctalDigits(n, w)) == n
  {
    if w > 0 {
      var d := OctalDigits(n, w);
      OctalInverse(n / 8, w - 1);
      assert d[..|d| - 1] == OctalDigits(n / 8, w - 1);
    }
  }

  /** oct2int reads back what the writer put in a size field, whatever byte but a digit 0 to 7 ends it. */
  lemma FieldInverse(n: nat, term: Byte)
    requires n < 0x8000_0000 && (term < 48 || term > 55)
    ensures FieldValue(OctalDigits(n, 11) + [term]) == n
  {
    hide OctalDigits, OctalValue;
    var d, f := OctalDigits(n, 11), OctalDigits(n, 11) + [term];
    Pow8Eleven();
    OctalInverse(n, 11);
    OctalRunIs(f, 11);
    assert f[..11] == d;
  }

  lemma {:induction false} OctalRunIs(f: seq<Byte>, n: nat)
    requires n <= |f| && (forall i :: 0 <= i < n ==> IsOctal(f[i])) && (n < |f| ==> !IsOctal(f[n]))
    ensures OctalRun(f) == n
  {
    if n > 0 {
      OctalRunIs(f[1..], n - 1);
    }
  }

  lemma Pow8Eleven()
    ensures Pow8(11) == 0x2_0000_0000
  {
  }

  // ---------------------------------------------------------------- the writer

  /** An archive member: what the reader looks at, and the header bytes it does not look at. */
  datatype Entry = Entry(name: seq<Byte>, kind: Byte, data: seq<Byte>, term: Byte, owner: seq<Byte>,
      times: seq<Byte>, rest: seq<Byte>)

  ghost predicate EntryOk(e: Entry) {
    && 0 < |e.name| < 100 && 0 !in e.name && |e.data| < 0x8000_0000 && (e.term == 0 || e.term == 32)
    && |e.owner| == 24 && |e.times| == 20 && |e.rest| == 355
  }

  function Zeros(n: nat): seq<Byte> {
    seq(n, _ => 0)
  }

  /** name[100], mode, uid and gid, size[12], mtime and checksum, type, and the rest of the 512-byte header. */
  function Header(e: Entry): seq<Byte> {
    e.name + Zeros(if |e.name| <= 100 then 100 - |e.name| else 0) + e.owner + (OctalDigits(|e.data|,
        11) + [e.term]) + e.times + [e.kind] + e.rest
  }

  function Padding(n: nat): nat {
    (n + 511) / 512 * 512 - n
  }

  function Member(e: Entry): seq<Byte> {
    Header(e) + e.data + Zeros(Padding(|e.data|))
  }

  /** The members, then two blocks of zeros. */
  function Archive(es: seq<Entry>): seq<Byte> {
    if es == [] then Zeros(1024) else Member(es[0]) + Archive(es[1..])
  }

  /** Where member k starts. */
  function Offset(es: seq<Entry>, k: nat): nat
    requires k <= |es|
  {
    if k == 0 then 0 else |Member(es[0])| + Offset(es[1..], k - 1)
  }

  predicate Regular(e: Entry) {
    e.kind == 48 || e.kind == 0
  }

  /** The first regular member of that name from k on; the number of members if there is none. */
  function FirstMatch(es: seq<Entry>, name: seq<Byte>, k: nat): (m: nat)
    requires k <= |es|
    ensures k <= m <= |es| && (m < |es| ==> (es[m].kind == 48 || es[m].kind == 0) && es[m].name == name)
    ensures forall i :: k <= i < m ==> es[i].name == name ==> es[i].kind != 48 && es[i].kind != 0
    decreases |es| - k
  {
    if k == |es| || (Regular(es[k]) && es[k].name == name) then k else FirstMatch(es, name, k + 1)
  }

  // ---------------------------------------------------------------- reading what was written

  /** The header's fields are where the reader looks for them. */
  lemma HeaderFields(e: Entry)
    requires EntryOk(e)
    ensures var h := Header(e);
            && |h| == 512 && h[..|e.name|] == e.name && h[|e.name|] == 0 && h[0] != 0
            && h[124..136] == OctalDigits(|e.data|, 11) + [e.term] && h[156] == e.kind
  {
    hide OctalDigits;
    var n, z, s := e.name, Zeros(100 - |e.name|), OctalDigits(|e.data|, 11) + [e.term];
    var h := n + z + e.owner + s + e.times + [e.kind] + e.rest;
    assert |n + z| == 100;
    assert h[124..136] == s;
    assert h[..|n|] == n;
    assert h[0] == n[0];
  }

  /** From any member on, the archive is that member's bytes and then the rest. */
  lemma {:induction false} ArchiveFrom(es: seq<Entry>, k: nat)
    requires k <= |es|
    ensures Offset(es, k) <= |Archive(es)| && Archive(es)[Offset(es, k)..] == Archive(es[k..])
    decreases k
  {
    hide Member;
    if k == 0 {
      assert es[0..] == es;
    } else {
      ArchiveFrom(es[1..], k - 1);
      var m, rest := Member(es[0]), Archive(es[1..]);
      assert Archive(es) == m + rest;
      assert (m + rest)[|m| + Offset(es[1..], k - 1)..] == rest[Offset(es[1..], k - 1)..];
      assert es[1..][k - 1..] == es[k..];
    }
  }

  lemma {:induction false} OffsetStep(es: seq<Entry>, k: nat)
    requires k < |es|
    ensures Offset(es, k + 1) == Offset(es, k) + |Member(es[k])|
    decreases k
  {
    hide Member;
    if k > 0 {
      OffsetStep(es[1..], k - 1);
    }
  }

  lemma SubSlice(a: seq<Byte>, o: nat, n: nat, i: nat, j: nat)
    requires o + n <= |a| && i <= j <= n
    ensures a[o..o + n][i..j] == a[o + i..o + j]
  {
    var x, y := a[o..o + n][i..j], a[o + i..o + j];
    forall k | 0 <= k < j - i ensures x[k] == y[k] {
      assert a[o..o + n][i + k] == a[o + i + k];
    }
  }

  /** The archive at member k, piece by piece. */
  lemma MemberPieces(es: seq<Entry>, k: nat)
    requires k < |es| && EntryOk(es[k])
    ensures var a, o, e := Archive(es), Offset(es, k), es[k];
            && o + 512 + |e.data| + Padding(|e.data|) == Offset(es, k + 1) <= |a|
            && a[o..o + 512] == Header(e) && a[o + 512..o + 512 + |e.data|] == e.data
  {
    hide Header;
    var a, o, e := Archive(es), Offset(es, k), es[k];
    ArchiveFrom(es, k);
    ArchiveFrom(es, k + 1);
    OffsetStep(es, k);
    HeaderFields(e);
    var h, m := Header(e), Member(e);
    assert es[k..][0] == e && es[k..][1..] == es[k + 1..];
    assert a[o..] == m + Archive(es[k + 1..]);
    assert a[o..o + |m|] == m by { assert a[o..o + |m|] == a[o..][..|m|]; }
    SubSlice(a, o, |m|, 0, 512);
    SubSlice(a, o, |m|, 512, 512 + |e.data|);
    assert m[0..512] == h && m[512..512 + |e.data|] == e.data;
  }

  /** What the reader sees at member k. */
  lemma AtMember(es: seq<Entry>, k: nat)
    requires k < |es| && EntryOk(es[k])
    ensures var a, o, e := Archive(es), Offset(es, k), es[k];
            && o + 512 + (|e.data| + 511) / 512 * 512 == Offset(es, k + 1) <= |a| && o + 512 + |e.data| <= |a|
            && a[o] != 0 && a[o + 156] == e.kind && FieldValue(a[o + 124..o + 136]) == |e.data|
            && |e.data| < 0x8000_0000 && Terminated(a, o) && CString(a, o) == e.name
            && a[o + 512..o + 512 + |e.data|] == e.data
  {
    hide Header, OctalDigits, FieldValue, Archive, Offset;
    MemberPieces(es, k);
    var a, o, e := Archive(es), Offset(es, k), es[k];
    HeaderFields(e);
    FieldInverse(|e.data|, e.term);
    var h := Header(e);
    SubSlice(a, o, 512, 124, 136);
    SubSlice(a, o, 512, 0, |e.name|);
    assert a[o] == h[0] && a[o + 156] == h[156] && a[o + |e.name|] == h[|e.name|];
    assert a[o..o + |e.name|] == e.name by { assert h[0..|e.name|] == h[..|e.name|]; }
    CStringIs(a, o, e.name);
  }

  lemma {:induction false} CStringIs(a: seq<Byte>, i: nat, name: seq<Byte>)
    requires i + |name| < |a| && a[i..i + |name|] == name && a[i + |name|] == 0 && 0 !in name
    ensures CString(a, i) == name && Terminated(a, i)
    decreases |name|
  {
    if name != [] {
      assert a[i] == name[0];
      assert a[i + 1..i + 1 + |name[1..]|] == name[1..];
      CStringIs(a, i + 1, name[1..]);
    }
  }

  /** The trailer stops the reader. */
  lemma AtEnd(es: seq<Entry>)
    ensures Offset(es, |es|) < |Archive(es)| && Archive(es)[Offset(es, |es|)] == 0
  {
    ArchiveFrom(es, |es|);
    assert es[|es|..] == [];
    assert Archive(es)[Offset(es, |es|)..][0] == 0;
  }

  // ---------------------------------------------------------------- find_binary

  datatype TarFile = TarFile(data: Option<nat>, size: nat)

  /** The data of the first regular member with the wanted name, as an offset into the archive; none if there is
      none. */
  method FindBinary(archive: seq<Byte>, filename: seq<Byte>, ghost es: seq<Entry>) returns (r: TarFile)
    requires (forall e :: e in es ==> EntryOk(e)) && archive == Archive(es)
    requires Terminated(filename, 0)
    ensures var m := FirstMatch(es, CString(filename, 0), 0);
            if m == |es| then r == TarFile(None, 0)
            else
              && r == TarFile(Some(Offset(es, m) + 512), |es[m].data|)
              && r.data.value + r.size <= |archive| && archive[r.data.value..r.data.value + r.size] == es[m].data
  {
    hide Archive, Offset, FieldValue, CString, EntryOk, FirstMatch, Terminated;
    var header := 0;
    ghost var k := 0;
    ghost var name := CString(filename, 0);
    OffsetZero(es);
    NextHeader(es, 0);
    while archive[header] != 0
      invariant 0 <= k <= |es| && header == Offset(es, k) && header < |archive| && (archive[header] == 0 <==> k == |es|)
      invariant FirstMatch(es, name, 0) == FirstMatch(es, name, k)
      decreases |es| - k
    {
      assert k < |es| && EntryOk(es[k]);
      AtMember(es, k);
      FirstMatchStep(es, name, k);
      var filesize := Oct2Int(archive, header + 124, 12);
      var kind := archive[header + 156];
      if kind == 48 || kind == 0 {
        var c := Strcmp(archive, header, filename);
        if c == 0 {
          return TarFile(Some(header + 512), filesize);
        }
      }
      var aligned := (filesize + 511) / 512 * 512;
      assert aligned < 0x1_0000_0000;   // no wrap-around in 32 bits
      header := header + 512 + aligned;
      k := k + 1;
      NextHeader(es, k);
    }
    FirstMatchStep(es, name, k);
    r := TarFile(None, 0);
  }

  lemma FirstMatchStep(es: seq<Entry>, name: seq<Byte>, k: nat)
    requires k <= |es|
    ensures FirstMatch(es, name, k) ==
            if k == |es| || (Regular(es[k]) && es[k].name == name) then k else FirstMatch(es, name, k + 1)
  {
  }

  /** The reader stays within the archive, and stops at the trailer only. */
  lemma NextHeader(es: seq<Entry>, k: nat)
    requires (forall e :: e in es ==> EntryOk(e)) && k <= |es|
    ensures Offset(es, k) < |Archive(es)| && (Archive(es)[Offset(es, k)] == 0 <==> k == |es|)
  {
    hide Archive, Offset, FieldValue, CString, EntryOk;
    AtEnd(es);
    if k < |es| {
      assert EntryOk(es[k]);
      AtMember(es, k);
    }
  }

  lemma OffsetZero(es: seq<Entry>)
    ensures Offset(es, 0) == 0
  {
  }
}
