/**
 The newc cpio archive of the initial RAM disk: a traversal that visits the regular files, and the
 encoding it reads back.  Archives are byte strings shorter than 2^64 bytes.
 */
module CpioNewc {
  import opened Basics
  import opened Word64

  type Archive = s: seq<Byte> | |s| < WORD_LIMIT

  // ----- hexadecimal fields

  function Nibble(c: Byte): (r: Option<nat>)
    ensures r.Some? ==> r.value < 16
  {
    if 48 <= c <= 57 then Some(c - 48)
    else if 97 <= c <= 102 then Some(c - 97 + 10)
    else if 65 <= c <= 70 then Some(c - 65 + 10)
    else None
  }

  /** The value of the first `n` digits. */
  function HexPrefix(text: seq<Byte>, n: nat): Option<nat>
    requires n <= |text|
  {
    if n == 0 then Some(0)
    else
      match HexPrefix(text, n - 1)
      case None => None
      case Some(v) => match Nibble(text[n - 1]) case None => None case Some(d) => Some(v * 16 + d)
  }

  function Hex(text: seq<Byte>): Option<nat> { HexPrefix(text, |text|) }

  lemma {:induction false} HexStops(text: seq<Byte>, n: nat, m: nat)
    requires n <= m <= |text| && HexPrefix(text, n).None?
    ensures HexPrefix(text, m).None?
    decreases m
  {
    if n < m { HexStops(text, n, m - 1); }
  }

  /** `parse_hex` */
  method ParseHex(text: seq<Byte>) returns (r: Option<nat>)
    ensures r == Hex(text)
  {
    var value, i := 0, 0;
    while i < |text|
      invariant i <= |text| && HexPrefix(text, i) == Some(value)
    {
      var nibble := Nibble(text[i]);
      if nibble.None? {
        HexStops(text, i + 1, |text|);
        return None;
      }
      value := value * 16 + nibble.value;
      i := i + 1;
    }
    r := Some(value);
  }

  function Digit(d: nat): Byte
    requires d < 16
  {
    if d < 10 then 48 + d else 97 + d - 10
  }

  /** `n` in `k` digits. */
  function HexOf(n: nat, k: nat): (s: seq<Byte>)
    ensures |s| == k
  {
    if k == 0 then [] else HexOf(n / 16, k - 1) + [Digit(n % 16)]
  }

  function Pow16(k: nat): nat { if k == 0 then 1 else 16 * Pow16(k - 1) }

  lemma {:induction false} HexPrefixOf(a: seq<Byte>, b: seq<Byte>, n: nat)
    requires n <= |a|
    ensures HexPrefix(a + b, n) == HexPrefix(a, n)
    decreases n
  {
    if n > 0 { HexPrefixOf(a, b, n - 1); }
  }

  /** Reading back a written number. */
  lemma {:induction false} HexRoundTrip(n: nat, k: nat)
    requires n < Pow16(k)
    ensures Hex(HexOf(n, k)) == Some(n)
    decreases k
  {
    if k > 0 {
      HexRoundTrip(n / 16, k - 1);
      HexPrefixOf(HexOf(n / 16, k - 1), [Digit(n % 16)], k - 1);
    }
  }

  /** "0123456789abcdef" and "0123456789ABCDEF": a digit is its place in one of the two. */
  lemma NibbleIs(c: Byte, d: nat)
    requires d < 16
    ensures Nibble(c) == Some(d) <==>
            c == [48, 49, 50, 51, 52, 53, 54, 55, 56, 57, 97, 98, 99, 100, 101, 102][d] ||
            c == [48, 49, 50, 51, 52, 53, 54, 55, 56, 57, 65, 66, 67, 68, 69, 70][d]
  {}

  function Capital(c: Byte): Byte { if 97 <= c <= 102 then c - 32 else c }

  /** The letters of a number may be written in either case. */
  lemma {:induction false} CaseBlind(a: seq<Byte>, b: seq<Byte>, n: nat)
    requires |a| == |b| && n <= |a| && forall i: nat | i < n :: Capital(a[i]) == Capital(b[i])
    ensures HexPrefix(a, n) == HexPrefix(b, n)
    decreases n
  {
    if n > 0 {
      CaseBlind(a, b, n - 1);
      assert Capital(a[n - 1]) == Capital(b[n - 1]);
    }
  }

  // ----- paths

  /** `normalize_archive_path`: leading "./" pairs, then leading slashes, are dropped. */
  function Normalize(p: seq<Byte>): seq<Byte>
  {
    if |p| >= 2 && p[0] == 46 && p[1] == 47 then Normalize(p[2..]) else DropSlashes(p)
  }

  function DropSlashes(p: seq<Byte>): seq<Byte>
  {
    if p != [] && p[0] == 47 then DropSlashes(p[1..]) else p
  }

  /** "./" */
  predicate StartsHere(p: seq<Byte>) { |p| >= 2 && p[0] == 46 && p[1] == 47 }

  lemma {:induction false} NormalizeShrinks(p: seq<Byte>)
    ensures |DropSlashes(p)| <= |p| && |Normalize(p)| <= |p|
    ensures p != [] && p[0] == 47 ==> |DropSlashes(p)| < |p|
    decreases |p|
  {
    if p != [] { NormalizeShrinks(p[1..]); }
    if StartsHere(p) { NormalizeShrinks(p[2..]); }
  }

  /**
   A name without prefix is its own normal form, and "./" before any name makes no difference.  A "/"
   makes none exactly if the name does not start with "./": "/./x" and "./x" are different paths.
   */
  lemma Prefixes(p: seq<Byte>)
    ensures Normalize(p) == p <==> !StartsHere(p) && (p == [] || p[0] != 47)
    ensures Normalize([46, 47] + p) == Normalize(p)
    ensures Normalize([47] + p) == Normalize(p) <==> !StartsHere(p)
  {
    NormalizeShrinks(p);
    assert ([46, 47] + p)[2..] == p && ([47] + p)[1..] == p;
    if StartsHere(p) { NormalizeShrinks(p[2..]); }
  }

  method NormalizePath(p: seq<Byte>) returns (i: nat)
    ensures i <= |p| && p[i..] == Normalize(p)
  {
    i := 0;
    while i + 2 <= |p| && p[i] == 46 && p[i + 1] == 47
      invariant i <= |p| && Normalize(p[i..]) == Normalize(p)
    {
      assert p[i..][2..] == p[i + 2..];
      i := i + 2;
    }
    while i < |p| && p[i] == 47
      invariant i <= |p| && DropSlashes(p[i..]) == Normalize(p)
    {
      assert p[i..][1..] == p[i + 1..];
      i := i + 1;
    }
  }

  /** `cpio_newc_paths_equal` on strings without their terminators. */
  method PathsEqual(a: seq<Byte>, b: seq<Byte>) returns (r: bool)
    ensures r <==> Normalize(a) == Normalize(b)
  {
    var i := NormalizePath(a);
    var j := NormalizePath(b);
    var x, y := a[i..], b[j..];
    var k := 0;
    while k < |x| && k < |y|
      invariant k <= |x| && k <= |y| && forall m: nat | m < k :: x[m] == y[m]
    {
      if x[k] != y[k] { return false; }
      k := k + 1;
    }
    r := |x| == |y|;
    assert r ==> x == y;
  }

  // ----- one entry

  const HEADER_SIZE: nat := 110
  const MAGIC: seq<Byte> := [48, 55, 48, 55, 48, 49]
  /** "TRAILER!!!" */
  const TRAILER: seq<Byte> := [84, 82, 65, 73, 76, 69, 82, 33, 33, 33]

  datatype File = File(name: seq<Byte>, data: seq<Byte>)

  datatype Step = Bad | End | Entry(regular: bool, file: File, next: nat)

  function AlignUp4(n: nat): (r: nat)
    ensures r % 4 == 0 && n <= r < n + 4
  {
    (n + 3) / 4 * 4
  }

  lemma AlignMono(m: nat, n: nat)
    requires m <= n
    ensures AlignUp4(m) <= AlignUp4(n)
  {}

  /** The bytes before the first zero. */
  function CString(s: seq<Byte>): seq<Byte>
  {
    if s == [] || s[0] == 0 then [] else [s[0]] + CString(s[1..])
  }

  predicate IsRegular(mode: nat) { mode / 0x1000 % 16 == 8 }

  lemma AndEven(a: nat, b: nat, c: nat)
    requires c == 2 * b
    ensures And(a, c) == 2 * And(a / 2, b)
  {}

  lemma AndOdd(a: nat, b: nat, c: nat)
    requires c == 2 * b + 1
    ensures And(a, c) == a % 2 + 2 * And(a / 2, b)
  {}

  lemma AndFour(a: nat, b: nat, c: nat, q: nat)
    requires c == 4 * b && q == a / 4
    ensures And(a, c) == 4 * And(q, b)
  {
    AndEven(a, 2 * b, c);
    AndEven(a / 2, b, 2 * b);
  }

  lemma AndSixteen(a: nat, b: nat, c: nat, q: nat)
    requires c == 16 * b && q == a / 16
    ensures And(a, c) == 16 * And(q, b)
  {
    AndFour(a, 4 * b, c, a / 4);
    AndFour(a / 4, b, 4 * b, q);
  }

  lemma AndThree(a: nat, b: nat, c: nat, q: nat)
    requires c == 4 * b + 3 && q == a / 4
    ensures And(a, c) == a % 4 + 4 * And(q, b)
  {
    AndOdd(a, 2 * b + 1, c);
    AndOdd(a / 2, b, 2 * b + 1);
  }

  lemma AndFifteen(a: nat, c: nat, three: nat)
    requires c == 15 && three == 3
    ensures And(a, c) == a % 16
  {
    AndThree(a, three, c, a / 4);
    AndThree(a / 4, 0, three, a / 16);
  }

  lemma TypeField(mode: nat, mask: nat, m1: nat, m2: nat, m3: nat, kind: nat)
    requires mask == 16 * m1 && m1 == 16 * m2 && m2 == 16 * m3 && m3 == 15 && kind == mode / 0x1000 % 16
    ensures And(mode, mask) == 0x1000 * kind
  {
    var q1, q2, q3 := mode / 16, mode / 0x100, mode / 0x1000;
    AndSixteen(mode, m1, mask, q1);
    AndSixteen(q1, m2, m1, q2);
    AndSixteen(q2, m3, m2, q3);
    AndFifteen(q3, m3, 3);
  }

  /** `is_regular_entry`: the mode, masked with octal 0170000, is octal 0100000. */
  lemma RegularMode(mode: nat)
    ensures IsRegular(mode) <==> And(mode, 0xF000) == 0x8000
  {
    TypeField(mode, 0xF000, 0xF00, 0xF0, 0xF, mode / 0x1000 % 16);
  }

  /** What the traversal does with the entry at `offset`; every read lies inside the archive. */
  function StepAt(a: Archive, offset: nat): (r: Step)
    ensures r.Entry? ==> offset + HEADER_SIZE < r.next <= AlignUp4(|a|) && r.next % 4 == 0
  {
    if offset + HEADER_SIZE > |a| || a[offset..offset + 6] != MAGIC then Bad
    else
      match (Hex(a[offset + 14..offset + 22]), Hex(a[offset + 94..offset + 102]), Hex(a[offset + 54..offset + 62]))
      case (Some(mode), Some(nameSize), Some(fileSize)) =>
        var nameEnd := offset + HEADER_SIZE + nameSize;
        if nameSize == 0 || nameEnd > |a| || a[nameEnd - 1] != 0 then Bad
        else
          var dataAt := AlignUp4(nameEnd);
          if dataAt > |a| || dataAt + fileSize > |a| then Bad
          else
            var name := CString(a[offset + HEADER_SIZE..nameEnd]);
            if Normalize(name) == TRAILER then End
            else
              AlignMono(dataAt + fileSize, |a|);
              Entry(IsRegular(mode), File(name, a[dataAt..dataAt + fileSize]), AlignUp4(dataAt + fileSize))
      case _ => Bad
  }

  /** The files visited, and whether the trailer was reached. */
  datatype Visit = Visit(files: seq<File>, ok: bool)

  function Before(f: File, v: Visit): Visit { Visit([f] + v.files, v.ok) }

  /** `for_each_cpio_newc_file` from `offset` on. */
  function Visits(a: Archive, offset: nat, accepts: File -> bool): Visit
    decreases AlignUp4(|a|) + 1 - offset
  {
    if offset > |a| then Visit([], false)
    else
      match StepAt(a, offset)
      case Bad => Visit([], false)
      case End => Visit([], true)
      case Entry(regular, file, next) =>
        if !regular then Visits(a, next, accepts)
        else if !accepts(file) then Visit([file], false)
        else Before(file, Visits(a, next, accepts))
  }

  /** The header and bounds checks of one turn of the loop. */
  method ReadEntry(a: Archive, offset: nat) returns (r: Step)
    ensures r == StepAt(a, offset)
  {
    if offset + HEADER_SIZE > |a| || a[offset..offset + 6] != MAGIC { return Bad; }
    var mode := ParseHex(a[offset + 14..offset + 22]);
    var nameSize := ParseHex(a[offset + 94..offset + 102]);
    var fileSize := ParseHex(a[offset + 54..offset + 62]);
    if mode.None? || nameSize.None? || fileSize.None? || nameSize.value == 0 { return Bad; }
    var nameEnd := offset + HEADER_SIZE + nameSize.value;
    if nameEnd > |a| || a[nameEnd - 1] != 0 { return Bad; }
    var dataAt := AlignUp4(nameEnd);
    if dataAt > |a| || dataAt + fileSize.value > |a| { return Bad; }
    var name := CString(a[offset + HEADER_SIZE..nameEnd]);
    var last := PathsEqual(name, TRAILER);
    assert Normalize(TRAILER) == TRAILER;
    if last { return End; }
    r := Entry(IsRegular(mode.value), File(name, a[dataAt..dataAt + fileSize.value]),
               AlignUp4(dataAt + fileSize.value));
  }

  /** `for_each_cpio_newc_file`: terminates on any bytes, and visits what the definition says. */
  method ForEachFile(a: Archive, accepts: File -> bool) returns (ok: bool, visited: seq<File>)
    ensures Visit(visited, ok) == Visits(a, 0, accepts)
  {
    visited := [];
    var offset: nat := 0;
    ghost var all := Visits(a, offset, accepts);
    assert [] + all.files == all.files;
    while offset <= |a|
      invariant all == Visit(visited + Visits(a, offset, accepts).files, Visits(a, offset, accepts).ok)
      decreases AlignUp4(|a|) + 1 - offset
    {
      var step := ReadEntry(a, offset);
      match step {
        case Bad => return false, visited;
        case End => return true, visited;
        case Entry(regular, file, next) =>
          if regular {
            if !accepts(file) { return false, visited + [file]; }
            Regroup(visited, [file], Visits(a, next, accepts).files);
            visited := visited + [file];
          }
          if next <= offset { return false, visited; }
          offset := next;
      }
    }
    ok := false;
  }

  // ----- encoding

  /**
   An entry to archive, with its header fields as text.  Sizes and mode may be spelt in either case;
   `ino`, `owner`, `device` and `check` are the fields the traversal ignores.
   */
  datatype Item = Item(name: seq<Byte>, mode: nat, data: seq<Byte>, ino: seq<Byte>, modeText: seq<Byte>,
                       owner: seq<Byte>,
                       sizeText: seq<Byte>, device: seq<Byte>, nameText: seq<Byte>, check: seq<Byte>)

  ghost predicate ItemOk(e: Item)
  {
    && |e.ino| == |e.modeText| == |e.sizeText| == |e.nameText| == |e.check| == 8 && |e.owner| == |e.device| == 32
    && Hex(e.modeText) == Some(e.mode) && Hex(e.sizeText) == Some(|e.data|) && Hex(e.nameText) == Some(|e.name| + 1)
    && forall i: nat | i < |e.name| :: e.name[i] != 0
  }

  function Zeros(n: nat): (s: seq<Byte>)
    ensures |s| == n
  {
    seq(n, _ => 0)
  }

  function Padding(n: nat): nat { AlignUp4(n) - n }

  function Header(e: Item): seq<Byte>
  {
    MAGIC + e.ino + e.modeText + e.owner + e.sizeText + e.device + e.nameText + e.check
  }

  function Named(e: Item): seq<Byte>
  {
    Header(e) + (e.name + [0]) + Zeros(Padding(HEADER_SIZE + |e.name| + 1))
  }

  function Encode(e: Item): seq<Byte>
  {
    Named(e) + e.data + Zeros(Padding(|e.data|))
  }

  function EncodeAll(es: seq<Item>): seq<Byte>
  {
    if es == [] then [] else Encode(es[0]) + EncodeAll(es[1..])
  }

  lemma HeaderFields(e: Item)
    requires ItemOk(e)
    ensures var h := Header(e);
            |h| == HEADER_SIZE && h[..6] == MAGIC && h[14..22] == e.modeText && h[54..62] == e.sizeText &&
                h[94..102] == e.nameText
  {
    var a := MAGIC + e.ino;
    var b := a + e.modeText + e.owner;
    var c := b + e.sizeText + e.device;
    assert |a| == 14 && |b| == 54 && |c| == 94;
    assert Header(e) == c + e.nameText + e.check;
  }

  lemma PrefixOf<T>(x: seq<T>, y: seq<T>, i: nat, j: nat)
    requires i <= j <= |x|
    ensures (x + y)[i..j] == x[i..j]
  {}

  lemma {:induction false} CStringOf(s: seq<Byte>)
    requires forall i: nat | i < |s| :: s[i] != 0
    ensures CString(s + [0]) == s
    decreases |s|
  {
    if s != [] {
      CStringOf(s[1..]);
      assert (s + [0])[1..] == s[1..] + [0];
    }
  }

  lemma NamedParts(e: Item)
    requires ItemOk(e)
    ensures var m := Named(e);
            && |m| == AlignUp4(HEADER_SIZE + |e.name| + 1) && m[..6] == MAGIC && m[14..22] == e.modeText &&
                m[54..62] == e.sizeText
            && m[94..102] == e.nameText && m[HEADER_SIZE..HEADER_SIZE + |e.name| + 1] == e.name + [0]
  {
    HeaderFields(e);
    var h, z := Header(e), Zeros(Padding(HEADER_SIZE + |e.name| + 1));
    Regroup(h, e.name + [0], z);
    PrefixOf(h, (e.name + [0]) + z, 0, 6);
    PrefixOf(h, (e.name + [0]) + z, 14, 22);
    PrefixOf(h, (e.name + [0]) + z, 54, 62);
    PrefixOf(h, (e.name + [0]) + z, 94, 102);
    SliceOf(h, e.name + [0], z, 0, |e.name| + 1);
  }

  /** Where things are in an encoded entry of `n` named bytes. */
  lemma EncodedParts(e: Item, n: nat)
    requires ItemOk(e) && n == |Named(e)|
    ensures var c := Encode(e);
            && n == AlignUp4(HEADER_SIZE + |e.name| + 1) && |c| == n + AlignUp4(|e.data|)
            && c[..6] == MAGIC && c[14..22] == e.modeText && c[54..62] == e.sizeText && c[94..102] == e.nameText
            && c[HEADER_SIZE..HEADER_SIZE + |e.name| + 1] == e.name + [0] && c[n..n + |e.data|] == e.data
  {
    NamedParts(e);
    var m, z := Named(e), Zeros(Padding(|e.data|));
    Regroup(m, e.data, z);
    PrefixOf(m, e.data + z, 0, 6);
    PrefixOf(m, e.data + z, 14, 22);
    PrefixOf(m, e.data + z, 54, 62);
    PrefixOf(m, e.data + z, 94, 102);
    PrefixOf(m, e.data + z, HEADER_SIZE, HEADER_SIZE + |e.name| + 1);
    SliceOf(m, e.data, z, 0, |e.data|);
  }

  lemma AlignAdds(base: nat, n: nat)
    requires base % 4 == 0
    ensures AlignUp4(base + n) == base + AlignUp4(n)
  {}

  /** The same parts in an archive that holds the entry at offset `o`. */
  lemma PartsInArchive(pre: seq<Byte>, e: Item, post: seq<Byte>, a: Archive, o: nat, n: nat)
    requires ItemOk(e) && a == pre + Encode(e) + post && o == |pre| && n == |Named(e)|
    ensures o + n + |e.data| <= |a| && n == AlignUp4(HEADER_SIZE + |e.name| + 1)
    ensures |Encode(e)| == n + AlignUp4(|e.data|)
    ensures a[o..o + 6] == MAGIC && a[o + 14..o + 22] == e.modeText && a[o + 54..o + 62] == e.sizeText
    ensures a[o + 94..o + 102] == e.nameText
    ensures a[o + HEADER_SIZE..o + HEADER_SIZE + |e.name| + 1] == e.name + [0] && a[o + n..o + n + |e.data|] == e.data
  {
    EncodedParts(e, n);
    var c := Encode(e);
    SliceOf(pre, c, post, 0, 6);
    SliceOf(pre, c, post, 14, 22);
    SliceOf(pre, c, post, 54, 62);
    SliceOf(pre, c, post, 94, 102);
    SliceOf(pre, c, post, HEADER_SIZE, HEADER_SIZE + |e.name| + 1);
    SliceOf(pre, c, post, n, n + |e.data|);
  }

  /** With these parts in place, the step at offset `o` yields the entry and leads behind it. */
  lemma StepFrom(a: Archive, e: Item, o: nat, n: nat, next: nat)
    requires next == o + n + AlignUp4(|e.data|)
    requires o % 4 == 0 && o + n + |e.data| <= |a| && n == AlignUp4(HEADER_SIZE + |e.name| + 1)
    requires a[o..o + 6] == MAGIC && Hex(a[o + 14..o + 22]) == Some(e.mode)
    requires Hex(a[o + 54..o + 62]) == Some(|e.data|) && Hex(a[o + 94..o + 102]) == Some(|e.name| + 1)
    requires a[o + HEADER_SIZE + |e.name|] == 0 && CString(a[o + HEADER_SIZE..o + HEADER_SIZE + |e.name| + 1]) == e.name
    requires a[o + n..o + n + |e.data|] == e.data
    ensures StepAt(a, o) == if Normalize(e.name) == TRAILER then End
                            else Entry(IsRegular(e.mode), File(e.name, e.data), next)
  {
    AlignAdds(o, HEADER_SIZE + |e.name| + 1);
    AlignAdds(o + n, |e.data|);
  }

  /** The step at an encoded entry yields that entry and leads to its end. */
  lemma StepEncoded(pre: seq<Byte>, e: Item, post: seq<Byte>, a: Archive, next: nat)
    requires ItemOk(e) && a == pre + Encode(e) + post && |pre| % 4 == 0 && next == |pre| + |Encode(e)|
    ensures StepAt(a, |pre|) == if Normalize(e.name) == TRAILER then End
                                else Entry(IsRegular(e.mode), File(e.name, e.data), next)
    ensures |Encode(e)| % 4 == 0
  {
    var o, n := |pre|, |Named(e)|;
    PartsInArchive(pre, e, post, a, o, n);
    CStringOf(e.name);
    LastOf(a, o + HEADER_SIZE, o + HEADER_SIZE + |e.name| + 1, e.name);
    StepFrom(a, e, o, n, next);
    EncodedFour(e, n, AlignUp4(|e.data|));
  }

  lemma EncodedFour(e: Item, n: nat, m: nat)
    requires ItemOk(e) && n == |Named(e)| && m == AlignUp4(|e.data|)
    ensures |Encode(e)| % 4 == 0
  {
    EncodedParts(e, n);
    FourAdds(n, m);
  }

  lemma FourAdds(x: nat, y: nat)
    requires x % 4 == 0 && y % 4 == 0
    ensures (x + y) % 4 == 0
  {}

  lemma LastOf(a: seq<Byte>, i: nat, j: nat, name: seq<Byte>)
    requires i < j <= |a| && a[i..j] == name + [0]
    ensures a[j - 1] == 0
  {
    assert a[j - 1] == a[i..j][j - 1 - i];
  }

  ghost function Files(es: seq<Item>): seq<File>
  {
    if es == [] then [] else (if IsRegular(es[0].mode) then [File(es[0].name, es[0].data)] else []) + Files(es[1..])
  }

  /** The files up to and including the first that is not accepted. */
  ghost function Accepted(fs: seq<File>, accepts: File -> bool): Visit
  {
    if fs == [] then Visit([], true)
    else if !accepts(fs[0]) then Visit([fs[0]], false)
    else Before(fs[0], Accepted(fs[1..], accepts))
  }

  lemma FilesStep(es: seq<Item>, accepts: File -> bool)
    requires es != []
    ensures var f, more := File(es[0].name, es[0].data), Accepted(Files(es[1..]), accepts);
            Accepted(Files(es), accepts) ==
            if !IsRegular(es[0].mode) then more else if !accepts(f) then Visit([f], false) else Before(f, more)
  {
    if IsRegular(es[0].mode) {
      assert Files(es)[1..] == Files(es[1..]);
    } else {
      assert Files(es) == Files(es[1..]);
    }
  }

  lemma Shift<T>(a: seq<T>, b: seq<T>, c: seq<T>, d: seq<T>)
    ensures a + (b + c) + d == (a + b) + c + d && a + (b + c) + d == a + b + (c + d)
  {}

  lemma VisitStep(a: Archive, o: nat, next: nat, e: Item, accepts: File -> bool)
    requires o <= |a| && Normalize(e.name) != TRAILER
    requires StepAt(a, o) == Entry(IsRegular(e.mode), File(e.name, e.data), next)
    ensures var f, more := File(e.name, e.data), Visits(a, next, accepts);
            Visits(a, o, accepts) == if !IsRegular(e.mode) then more else if !accepts(f) then Visit([f],
                false) else Before(f, more)
  {}

  /**
   On the encoding of any list of entries followed by an encoded trailer and any bytes, the
   traversal visits exactly the regular files, in order, until one is not accepted.
   */
  lemma {:induction false} TraversalReadsBack(pre: seq<Byte>, es: seq<Item>, trailer: Item, post: seq<Byte>,
                                              a: Archive, accepts: File -> bool)
    requires |pre| % 4 == 0 && a == pre + EncodeAll(es) + (Encode(trailer) + post)
    requires forall i: nat | i < |es| :: ItemOk(es[i]) && Normalize(es[i].name) != TRAILER
    requires ItemOk(trailer) && Normalize(trailer.name) == TRAILER
    ensures Visits(a, |pre|, accepts) == Accepted(Files(es), accepts)
    decreases |es|
  {
    var end := Encode(trailer) + post;
    if es == [] {
      assert pre + EncodeAll(es) == pre;
      Regroup(pre, Encode(trailer), post);
      StepEncoded(pre, trailer, post, a, |pre| + |Encode(trailer)|);
    } else {
      var e, more := es[0], EncodeAll(es[1..]);
      var next := pre + Encode(e);
      Shift(pre, Encode(e), more, end);
      StepEncoded(pre, e, more + end, a, |next|);
      FourAdds(|pre|, |Encode(e)|);
      VisitStep(a, |pre|, |next|, e, accepts);
      TraversalReadsBack(next, es[1..], trailer, post, a, accepts);
      FilesStep(es, accepts);
    }
  }

  // ----- any list of files has an archive

  /** What is to be archived: `mode`, name and contents. */
  datatype Plain = Plain(mode: nat, name: seq<Byte>, data: seq<Byte>)

  /** Eight hexadecimal digits hold every number, and names have no null byte. */
  ghost predicate PlainOk(p: Plain)
  {
    p.mode < 0x1_0000_0000 && |p.name| + 1 < 0x1_0000_0000 && |p.data| < 0x1_0000_0000 &&
        forall i: nat | i < |p.name| :: p.name[i] != 0
  }

  /** A field of zeros. */
  function Blank(n: nat): (s: seq<Byte>)
    ensures |s| == n
  {
    seq(n, _ => 48)
  }

  function Trailer(): Item { Spell(Plain(0, TRAILER, [])) }

  lemma TrailerOk()
    ensures ItemOk(Trailer()) && Normalize(Trailer().name) == TRAILER
  {
    SpellOk(Plain(0, TRAILER, []));
  }

  function Spell(p: Plain): Item
  {
    Item(p.name, p.mode, p.data, Blank(8), HexOf(p.mode, 8), Blank(32), HexOf(|p.data|, 8), Blank(32),
         HexOf(|p.name| + 1, 8), Blank(8))
  }

  function SpellAll(ps: seq<Plain>): (es: seq<Item>)
    ensures |es| == |ps| && forall i: nat | i < |ps| :: es[i] == Spell(ps[i])
  {
    if ps == [] then [] else [Spell(ps[0])] + SpellAll(ps[1..])
  }

  lemma SpellOk(p: Plain)
    requires PlainOk(p)
    ensures ItemOk(Spell(p))
  {
    assert Pow16(8) == 0x1_0000_0000;
    HexRoundTrip(p.mode, 8);
    HexRoundTrip(|p.data|, 8);
    HexRoundTrip(|p.name| + 1, 8);
  }

  ghost function RegularFiles(ps: seq<Plain>): seq<File>
  {
    if ps == [] then []
    else (if IsRegular(ps[0].mode) then [File(ps[0].name, ps[0].data)] else []) + RegularFiles(ps[1..])
  }

  lemma {:induction false} FilesOfSpelled(ps: seq<Plain>)
    ensures Files(SpellAll(ps)) == RegularFiles(ps)
    decreases |ps|
  {
    if ps != [] {
      assert SpellAll(ps)[1..] == SpellAll(ps[1..]);
      FilesOfSpelled(ps[1..]);
    }
  }

  lemma {:induction false} FromStart(es: seq<Item>, end: Item, post: seq<Byte>, a: Archive, accepts: File -> bool)
    requires forall i: nat | i < |es| :: ItemOk(es[i]) && Normalize(es[i].name) != TRAILER
    requires ItemOk(end) && Normalize(end.name) == TRAILER && a == EncodeAll(es) + (Encode(end) + post)
    ensures Visits(a, 0, accepts) == Accepted(Files(es), accepts)
  {
    assert a == [] + EncodeAll(es) + (Encode(end) + post);
    TraversalReadsBack([], es, end, post, a, accepts);
  }

  /** Any list of files can be archived, and the traversal of the archive visits its regular files in order. */
  lemma {:induction false} AnyArchive(ps: seq<Plain>, post: seq<Byte>, a: Archive, accepts: File -> bool)
    requires forall i: nat | i < |ps| :: PlainOk(ps[i]) && Normalize(ps[i].name) != TRAILER
    requires a == EncodeAll(SpellAll(ps)) + (Encode(Trailer()) + post)
    ensures Visits(a, 0, accepts) == Accepted(RegularFiles(ps), accepts)
  {
    var es, end := SpellAll(ps), Trailer();
    forall i: nat | i < |es| ensures ItemOk(es[i]) && Normalize(es[i].name) != TRAILER { SpellOk(ps[i]); }
    TrailerOk();
    FromStart(es, end, post, a, accepts);
    FilesOfSpelled(ps);
  }
}
