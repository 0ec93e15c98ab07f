/**
 The pure helpers of the installer: the input validators, host-ID formatting, the parser
 of `lsblk -d -n -o NAME,SIZE,TYPE,MODEL` output, and the GiB arithmetic that splits the
 boot disk into boot, Nix store, Atuin and home areas.
 */
module Helpers {
  import opened Wrappers
  import opened Text
  import opened Types

  // ---------------------------------------------------------------------------
  // Validators. Each regular expression of the source is anchored at both ends,
  // so it reduces to character-class conditions on the positions of the string.

  predicate IsLowerAlpha(c: char) {
    'a' <= c <= 'z'
  }

  /** `[a-z_]` */
  predicate UsernameHead(c: char) {
    IsLowerAlpha(c) || c == '_'
  }

  /** `[a-z0-9_-]` */
  predicate UsernameTail(c: char) {
    IsLowerAlpha(c) || IsDigit(c) || c == '_' || c == '-'
  }

  /** Non-empty and matching `^[a-z_][a-z0-9_-]*$`. */
  predicate IsValidUsername(s: string) {
    s != "" && UsernameHead(s[0]) && forall i :: 1 <= i < |s| ==> UsernameTail(s[i])
  }

  /** Non-empty and matching `^[^@]+@[^@]+\.[^@]+$`: an `@` at `i` and a `.` at `j`, each of the
      three parts they delimit non-empty, and no other `@` anywhere. */
  predicate IsValidEmail(s: string) {
    && s != ""
    && exists i, j :: 0 < i && i + 1 < j && j + 1 < |s| && s[i] == '@' && s[j] == '.'
                     && '@' !in s[..i] && '@' !in s[i + 1..]
  }

  /** `[a-zA-Z0-9-]` */
  predicate HostnameChar(c: char) {
    IsLowerAlpha(c) || ('A' <= c <= 'Z') || IsDigit(c) || c == '-'
  }

  /** Non-empty and matching `^[a-zA-Z0-9-]+$`. */
  predicate IsValidHostname(s: string) {
    s != "" && forall i :: 0 <= i < |s| ==> HostnameChar(s[i])
  }

  /** Number of occurrences of `c` in `s`. */
  function Count(s: string, c: char): nat {
    if |s| == 0 then 0 else Count(s[..|s| - 1], c) + (if s[|s| - 1] == c then 1 else 0)
  }

  lemma {:induction false} CountAppend(a: string, b: string, c: char)
    ensures Count(a + b, c) == Count(a, c) + Count(b, c)
    decreases |b|
  {
    if |b| > 0 {
      assert (a + b)[..|a + b| - 1] == a + b[..|b| - 1];
      CountAppend(a, b[..|b| - 1], c);
    } else {
      assert a + b == a;
    }
  }

  lemma {:induction false} CountZero(s: string, c: char)
    ensures Count(s, c) == 0 <==> c !in s
  {
    if |s| > 0 {
      CountZero(s[..|s| - 1], c);
      assert s == s[..|s| - 1] + [s[|s| - 1]];
    }
  }

  /** Splitting `s` around position `i` splits the count of `c`. */
  lemma CountAround(s: string, i: nat, c: char)
    requires i < |s|
    ensures Count(s, c) == Count(s[..i], c) + (if s[i] == c then 1 else 0) + Count(s[i + 1..], c)
  {
    assert s == (s[..i] + [s[i]]) + s[i + 1..];
    CountAppend(s[..i] + [s[i]], s[i + 1..], c);
    assert (s[..i] + [s[i]])[..i] == s[..i];
  }

  /** An `@` with none before or after it is the only one, and `IndexOf` finds it. */
  lemma SoleAt(s: string, i: nat)
    requires i < |s| && s[i] == '@' && '@' !in s[..i] && '@' !in s[i + 1..]
    ensures Count(s, '@') == 1 && '@' in s && IndexOf(s, '@') == i
  {
    CountAround(s, i, '@');
    CountZero(s[..i], '@');
    CountZero(s[i + 1..], '@');
  }

  /** With exactly one `@`, nothing after the first `@` is an `@`. */
  lemma NoAtAfterSole(s: string)
    requires Count(s, '@') == 1 && '@' in s
    ensures '@' !in s[IndexOf(s, '@') + 1..]
  {
    var i := IndexOf(s, '@');
    CountAround(s, i, '@');
    CountZero(s[i + 1..], '@');
  }

  /** The e-mail pattern in words: exactly one `@`, something before it, and after it a `.`
      with at least one character on each side. */
  lemma EmailShape(s: string)
    ensures IsValidEmail(s) <==>
      && Count(s, '@') == 1
      && '@' in s
      && var i := IndexOf(s, '@');
         i > 0 && exists p :: i + 1 < p < |s| - 1 && s[p] == '.'
  {
    if IsValidEmail(s) {
      var i, j :| 0 < i && i + 1 < j && j + 1 < |s| && s[i] == '@' && s[j] == '.'
                  && '@' !in s[..i] && '@' !in s[i + 1..];
      SoleAt(s, i);
    }
    if Count(s, '@') == 1 && '@' in s {
      var i := IndexOf(s, '@');
      if i > 0 && exists p :: i + 1 < p < |s| - 1 && s[p] == '.' {
        var p :| i + 1 < p < |s| - 1 && s[p] == '.';
        NoAtAfterSole(s);
        assert 0 < i && i + 1 < p && p + 1 < |s| && s[i] == '@' && s[p] == '.'
               && '@' !in s[..i] && '@' !in s[i + 1..];
      }
    }
  }

  /** Accepted user and host names carry no white space, so trimming leaves them unchanged. */
  lemma AcceptedNamesAreTrimmed(s: string)
    requires IsValidUsername(s) || IsValidHostname(s)
    ensures Trimmed(s) && TrimSpace(s) == s
  {
    assert s != "";
    var first, last := s[0], s[|s| - 1];
    if IsValidUsername(s) {
      assert UsernameHead(first) && (|s| == 1 || UsernameTail(last));
      assert first as int <= 0x7A && last as int <= 0x7A && first != ' ' && last != ' ';
      assert !IsSpace(first) && !IsSpace(last);
    } else {
      assert HostnameChar(first) && HostnameChar(last);
      assert !IsSpace(first) && !IsSpace(last);
    }
    TrimSpaceOfTrimmed(s);
  }

  /** Every valid username without an underscore is also a valid hostname. */
  lemma UsernameWithoutUnderscoreIsHostname(s: string)
    requires IsValidUsername(s) && '_' !in s
    ensures IsValidHostname(s)
  {
    forall i | 0 <= i < |s| ensures HostnameChar(s[i]) {
      assert s[i] != '_';
    }
  }

  // ---------------------------------------------------------------------------
  // Host ID

  const HostIdModulus: nat := 0x1_0000_0000

  lemma Pow16Eight()
    ensures Pow16(8) == HostIdModulus
  {
    assert Pow16(2) == 256;
    assert Pow16(4) == 16 * (16 * Pow16(2));
    assert Pow16(6) == 16 * (16 * Pow16(4));
    assert Pow16(8) == 16 * (16 * Pow16(6));
  }

  /** `fmt.Sprintf("%08x", uint32(clock))`: the low 32 bits of the clock as eight lower-case hex digits. */
  function HostId(clock: int): (id: string)
    ensures |id| == 8
    ensures forall i :: 0 <= i < |id| ==> IsLowerHexDigit(id[i])
    ensures HexValueOf(id) == clock % HostIdModulus
  {
    var low := clock % HostIdModulus;
    FixedHexEight(low);
    FixedHex(low, 8)
  }

  /** Eight hex digits hold any 32-bit value exactly. */
  lemma FixedHexEight(v: nat)
    requires v < HostIdModulus
    ensures HexValueOf(FixedHex(v, 8)) == v
  {
    var p := Pow16(8);
    FixedHexRoundTrip(v, 8);
    Pow16Eight();
    DivModUnique(v, p, 0, v);
  }

  /** A string `HostId` can produce. */
  predicate IsHostId(id: string) {
    |id| == 8 && forall i :: 0 <= i < |id| ==> IsLowerHexDigit(id[i])
  }

  /** Two clock readings give the same host ID exactly when they agree in their low 32 bits. */
  lemma HostIdCollision(c1: int, c2: int)
    ensures HostId(c1) == HostId(c2) <==> c1 % HostIdModulus == c2 % HostIdModulus
  {
  }

  // ---------------------------------------------------------------------------
  // Disk discovery

  /** The entry offered when `lsblk` cannot be run. */
  const TestDisk: DiskInfo := DiskInfo("/dev/sda", "100G", "Test Disk")

  /** The entry offered when `lsblk` lists no disk. */
  const NoDiskFound: DiskInfo := DiskInfo("/dev/sda", "100G", "No disks found")

  /** A line describes a disk when it has at least three fields and the third is `disk`. */
  predicate IsDiskRow(line: string) {
    var f := Fields(line);
    |f| >= 3 && f[2] == "disk"
  }

  /** The disk a line of `lsblk` output describes, if any. */
  function DiskOfLine(line: string): (d: Option<DiskInfo>)
    ensures d.Some? <==> IsDiskRow(line)
  {
    var f := Fields(line);
    if |f| >= 3 && f[2] == "disk" then
      var model := if |f| >= 4 then Join(f[3..], " ") else "";
      Some(DiskInfo("/dev/" + f[0], f[1], model))
    else None
  }

  /** The disks the lines describe, in line order. */
  function ParseDiskLines(lines: seq<string>): (r: seq<DiskInfo>)
    ensures |r| <= |lines|
    ensures forall k :: 0 <= k < |r| ==> "/dev/" <= r[k].path && |r[k].path| > 5
  {
    if |lines| == 0 then []
    else
      var head := match DiskOfLine(lines[0]) case Some(d) => [d] case None => [];
      head + ParseDiskLines(lines[1..])
  }

  /** `getAvailableDisks`, given the output of `lsblk` (`None` when the command failed). */
  function AvailableDisks(lsblk: Option<string>): (r: seq<DiskInfo>)
    ensures |r| >= 1
    ensures lsblk.None? ==> r == [TestDisk]
    ensures lsblk.Some? && (forall i :: 0 <= i < |SplitLines(lsblk.value)| ==> !IsDiskRow(SplitLines(lsblk.value)[i])) ==>
              r == [NoDiskFound]
    ensures lsblk.Some? && ParseDiskLines(SplitLines(lsblk.value)) != [] ==>
              r == ParseDiskLines(SplitLines(lsblk.value))
  {
    match lsblk
    case None => [TestDisk]
    case Some(out) =>
      var lines := SplitLines(out);
      ParseDiskLinesEmpty(lines);
      var disks := ParseDiskLines(lines);
      if |disks| == 0 then [NoDiskFound]
      else disks
  }

  /** Parsing distributes over concatenation of the input: every line is parsed on its own and
      the results keep the order of the lines. */
  lemma {:induction false} ParseDiskLinesAppend(a: seq<string>, b: seq<string>)
    ensures ParseDiskLines(a + b) == ParseDiskLines(a) + ParseDiskLines(b)
  {
    if |a| > 0 {
      assert (a + b)[0] == a[0];
      assert (a + b)[1..] == a[1..] + b;
      ParseDiskLinesAppend(a[1..], b);
    } else {
      assert a + b == b;
    }
  }

  /** The parse is empty exactly when no line is a disk row. */
  lemma {:induction false} ParseDiskLinesEmpty(lines: seq<string>)
    ensures ParseDiskLines(lines) == [] <==> forall i :: 0 <= i < |lines| ==> !IsDiskRow(lines[i])
  {
    if |lines| > 0 {
      ParseDiskLinesEmpty(lines[1..]);
      assert forall i :: 1 <= i < |lines| ==> lines[i] == lines[1..][i - 1];
    }
  }

  /** A line laid out as `NAME SIZE disk MODEL...` yields path `/dev/NAME`, the size, and the
      model words joined by single spaces, however the model words were spaced. */
  lemma DiskRowRoundTrip(name: string, size: string, model: seq<string>)
    requires IsWord(name) && IsWord(size)
    requires forall i :: 0 <= i < |model| ==> IsWord(model[i])
    ensures DiskOfLine(Join([name, size, "disk"] + model, " ")) == Some(DiskInfo("/dev/" + name, size, Join(model, " ")))
  {
    var ws := [name, size, "disk"] + model;
    RowWords(name, size, model);
    var line := Join(ws, " ");
    FieldsOfJoin(ws);
    DiskOfFields(line, ws);
    assert ws[3..] == model;
  }

  lemma RowWords(name: string, size: string, model: seq<string>)
    requires IsWord(name) && IsWord(size)
    requires forall i :: 0 <= i < |model| ==> IsWord(model[i])
    ensures forall i :: 0 <= i < |[name, size, "disk"] + model| ==> IsWord(([name, size, "disk"] + model)[i])
  {
    var ws := [name, size, "disk"] + model;
    forall i | 0 <= i < |ws| ensures IsWord(ws[i]) {
      if i >= 3 {
        assert ws[i] == model[i - 3];
      } else if i == 2 {
        assert ws[i] == "disk";
      }
    }
  }

  lemma DiskOfFields(line: string, f: seq<string>)
    requires Fields(line) == f && |f| >= 3 && f[2] == "disk"
    ensures DiskOfLine(line) == Some(DiskInfo("/dev/" + f[0], f[1], Join(f[3..], " ")))
  {
    if |f| == 3 {
      assert f[3..] == [];
    }
  }

  // ---------------------------------------------------------------------------
  // Space allocation

  /** Go's integer division, which truncates toward zero. */
  function GoDiv(a: int, b: int): int
    requires b > 0
  {
    if a >= 0 then a / b else -((-a) / b)
  }

  const GiB: nat := 1024 * 1024 * 1024

  /** `sizeBytes / 1024 / 1024 / 1024` in Go. */
  function SizeGiB(sizeBytes: int): int {
    GoDiv(GoDiv(GoDiv(sizeBytes, 1024), 1024), 1024)
  }

  /** The disk size the allocation works with: whole GiB, with 0 replaced by 100. */
  function EffectiveGiB(sizeBytes: int): int {
    var g := SizeGiB(sizeBytes);
    if g == 0 then 100 else g
  }

  lemma Distribute(x: int, y: int, m: int)
    ensures (x + y) * m == x * m + y * m
  {
  }

  lemma NestedDiv(b: nat, m: nat, n: nat)
    requires m > 0 && n > 0
    ensures (b / m) / n == b / (m * n)
  {
    var q1 := b / m;
    var r1 := b % m;
    var q2 := q1 / n;
    var r2 := q1 % n;
    assert b == q1 * m + r1;
    assert q1 == q2 * n + r2;
    Distribute(q2 * n, r2, m);
    assert q2 * n * m == q2 * (m * n);
    assert b == q2 * (m * n) + (r2 * m + r1);
    MulBound(n - 1 - r2, m);
    assert r2 * m + r1 < m * n;
    DivModUnique(b, m * n, q2, r2 * m + r1);
  }

  /** For a non-negative byte count the GiB count is rounded down. */
  lemma SizeGiBRoundsDown(sizeBytes: nat)
    ensures SizeGiB(sizeBytes) * GiB <= sizeBytes < (SizeGiB(sizeBytes) + 1) * GiB
  {
    NestedDiv(sizeBytes, 1024, 1024);
    NestedDiv(sizeBytes, 1024 * 1024, 1024);
    var g := sizeBytes / GiB;
    assert SizeGiB(sizeBytes) == g;
    assert sizeBytes == g * GiB + sizeBytes % GiB;
  }

  /** The four areas of the boot disk, in whole GiB. */
  datatype Allocation = Allocation(boot: int, nix: int, atuin: int, home: int)

  /** Boot is 5 GiB; Nix is 5% rounded down, at least 20; Atuin is 0.05% rounded down, at
      least 1; home gets the rest, without a lower bound. */
  function Allocate(sizeGB: int): (a: Allocation)
    ensures a.boot + a.nix + a.atuin + a.home == sizeGB
    ensures a.boot == 5 && a.nix >= 20 && a.atuin >= 1
    ensures sizeGB >= 0 ==>
      || (a.nix == 20 && 5 * sizeGB < 2100)
      || (a.nix > 20 && 100 * a.nix <= 5 * sizeGB < 100 * (a.nix + 1))
    ensures sizeGB >= 0 ==>
      || (a.atuin == 1 && 5 * sizeGB < 20000)
      || (a.atuin > 1 && 10000 * a.atuin <= 5 * sizeGB < 10000 * (a.atuin + 1))
    ensures sizeGB < 0 ==> a.nix == 20 && a.atuin == 1
  {
    var boot := 5;
    var nix := if GoDiv(sizeGB * 5, 100) < 20 then 20 else GoDiv(sizeGB * 5, 100);
    var atuin := if GoDiv(sizeGB * 5, 10000) < 1 then 1 else GoDiv(sizeGB * 5, 10000);
    Allocation(boot, nix, atuin, sizeGB - boot - nix - atuin)
  }

  /** Home is negative exactly on disks of 1 to 25 GiB. */
  lemma HomeNegativeOnSmallDisks(sizeGB: int)
    requires sizeGB >= 1
    ensures Allocate(sizeGB).home < 0 <==> sizeGB <= 25
  {
    var a := Allocate(sizeGB);
    if sizeGB < 400 {
      assert a.nix == 20 && a.atuin == 1;
    } else {
      assert 100 * a.nix <= 5 * sizeGB;
      assert a.atuin == 1 || 10000 * a.atuin <= 5 * sizeGB;
    }
  }

  /** A 100 GiB disk, and a size that reads as 0 GiB, are planned as 5G/20G/1G/74G. */
  lemma HundredGiBAllocation(c: Config)
    ensures Allocate(EffectiveGiB(0)) == Allocation(5, 20, 1, 74)
    ensures Allocate(EffectiveGiB(100 * GiB)) == Allocation(5, 20, 1, 74)
    ensures var r := CalculateSpaceAllocation(c, Some(100 * GiB));
      r.spaceBoot == "5G" && r.spaceNix == "20G" && r.spaceAtuin == "1G" && r.spaceHome == "74G"
    ensures var r := CalculateSpaceAllocation(c, Some(0));
      r.spaceBoot == "5G" && r.spaceNix == "20G" && r.spaceAtuin == "1G" && r.spaceHome == "74G"
  {
    SizeGiBRoundsDown(100 * GiB);
    assert FormatGiB(5) == "5G";
    assert FormatGiB(20) == "20G";
    assert FormatGiB(1) == "1G";
    assert FormatGiB(74) == "74G";
  }

  /** For a 64-bit byte count the products the source forms stay within 64 bits, so Go's
      arithmetic does not wrap here. */
  lemma AllocationFitsInt64(sizeBytes: int)
    requires -0x8000_0000_0000_0000 <= sizeBytes < 0x8000_0000_0000_0000
    ensures -0x8000_0000_0000_0000 <= EffectiveGiB(sizeBytes) * 5 < 0x8000_0000_0000_0000
  {
    var a := if sizeBytes >= 0 then sizeBytes else -sizeBytes;
    NestedDiv(a, 1024, 1024);
    NestedDiv(a, 1024 * 1024, 1024);
    assert -0x2_0000_0000 <= SizeGiB(sizeBytes) <= 0x2_0000_0000;
  }

  /** `fmt.Sprintf("%dG", n)`. */
  function FormatGiB(n: int): string {
    IntToDecimal(n) + "G"
  }

  /** Reads a size written by `FormatGiB`. */
  function ParseGiB(s: string): Option<int> {
    if |s| > 0 && s[|s| - 1] == 'G' then ParseDecimal(s[..|s| - 1]) else None
  }

  lemma GiBRoundTrip(n: int)
    ensures ParseGiB(FormatGiB(n)) == Some(n)
  {
    var s := FormatGiB(n);
    assert s[..|s| - 1] == IntToDecimal(n);
    DecimalRoundTrip(n);
  }

  /** The four size fields read back as sizes summing to `total`. */
  predicate SizesSumTo(c: Config, total: int) {
    && ParseGiB(c.spaceBoot).Some? && ParseGiB(c.spaceNix).Some?
    && ParseGiB(c.spaceAtuin).Some? && ParseGiB(c.spaceHome).Some?
    && ParseGiB(c.spaceBoot).value + ParseGiB(c.spaceNix).value
       + ParseGiB(c.spaceAtuin).value + ParseGiB(c.spaceHome).value == total
  }

  /** `calculateSpaceAllocation`, given what `lsblk -b` reported for the boot disk: `None` when
      the command failed, otherwise the byte count `Sscanf` read from its output. Only the four
      size fields change. */
  function CalculateSpaceAllocation(c: Config, sizeBytes: Option<int>): (r: Config)
    ensures r == c.(spaceBoot := r.spaceBoot, spaceNix := r.spaceNix, spaceHome := r.spaceHome, spaceAtuin := r.spaceAtuin)
    ensures sizeBytes.None? ==>
      r.spaceBoot == c.spaceBoot && r.spaceNix == "50G" && r.spaceHome == "100G" && r.spaceAtuin == "1G"
    ensures sizeBytes.Some? ==> SizesSumTo(r, EffectiveGiB(sizeBytes.value)) && ParseGiB(r.spaceBoot) == Some(5)
    ensures sizeBytes.Some? ==>
      var a := Allocate(EffectiveGiB(sizeBytes.value));
      && r.spaceBoot == FormatGiB(a.boot) && r.spaceNix == FormatGiB(a.nix)
      && r.spaceAtuin == FormatGiB(a.atuin) && r.spaceHome == FormatGiB(a.home)
  {
    match sizeBytes
    case None => c.(spaceNix := "50G", spaceHome := "100G", spaceAtuin := "1G")
    case Some(b) =>
      var a := Allocate(EffectiveGiB(b));
      GiBRoundTrip(a.boot);
      GiBRoundTrip(a.nix);
      GiBRoundTrip(a.atuin);
      GiBRoundTrip(a.home);
      c.(spaceBoot := FormatGiB(a.boot), spaceNix := FormatGiB(a.nix),
         spaceAtuin := FormatGiB(a.atuin), spaceHome := FormatGiB(a.home))
  }
}
