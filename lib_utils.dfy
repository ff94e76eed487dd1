/**
 * LibUtils.java: classifying the operating system and the architecture the
 * JVM reports, and naming the native library after them. The system
 * properties `os.name` and `os.arch` are parameters.
 */
module LibUtils {

  datatype OSType = APPLE | LINUX | SUN | WINDOWS | OS_UNKNOWN

  datatype ArchType = PPC | PPC_64 | SPARC | X86 | X86_64 | ARM | MIPS | RISC | ARCH_UNKNOWN

  /** Lower-casing of one character (ASCII letters only). */
  function LowerChar(c: char): char
  {
    if 'A' <= c <= 'Z' then (c as int + 32) as char else c
  }

  /** String.toLowerCase, character by character. */
  function Lower(s: string): (r: string)
    ensures |r| == |s| && forall i | 0 <= i < |s| :: r[i] == LowerChar(s[i])
  {
    seq(|s|, i requires 0 <= i < |s| => LowerChar(s[i]))
  }

  /** Lower-casing twice is lower-casing once. */
  lemma LowerIdempotent(s: string)
    ensures Lower(Lower(s)) == Lower(s)
  {
    assert forall i | 0 <= i < |s| :: Lower(Lower(s))[i] == Lower(s)[i];
  }

  predicate StartsWith(s: string, prefix: string)
  {
    |prefix| <= |s| && s[..|prefix|] == prefix
  }

  /** `part` occurs in `s` at index i. */
  predicate PartAt(s: string, part: string, i: int)
  {
    0 <= i <= |s| - |part| && s[i..i + |part|] == part
  }

  predicate Contains(s: string, part: string)
  {
    exists i | 0 <= i <= |s| - |part| :: PartAt(s, part, i)
  }

  /** No string starts with two prefixes that differ at index j. */
  lemma Clash(s: string, p: string, q: string, j: nat)
    requires j < |p| && j < |q| && p[j] != q[j]
    ensures !(StartsWith(s, p) && StartsWith(s, q))
  {
  }

  lemma OSPrefixesExclusive(n: string)
    ensures !(StartsWith(n, "mac os") && StartsWith(n, "windows"))
    ensures !(StartsWith(n, "mac os") && StartsWith(n, "linux"))
    ensures !(StartsWith(n, "mac os") && StartsWith(n, "sun"))
    ensures !(StartsWith(n, "windows") && StartsWith(n, "linux"))
    ensures !(StartsWith(n, "windows") && StartsWith(n, "sun"))
    ensures !(StartsWith(n, "linux") && StartsWith(n, "sun"))
  {
    Clash(n, "mac os", "windows", 0);
    Clash(n, "mac os", "linux", 0);
    Clash(n, "mac os", "sun", 0);
    Clash(n, "windows", "linux", 0);
    Clash(n, "windows", "sun", 0);
    Clash(n, "linux", "sun", 0);
  }

  lemma ArchPrefixesExclusive(a: string)
    ensures !(StartsWith(a, "ppc") && (StartsWith(a, "amd64") || StartsWith(a, "x86_64")))
    ensures !(StartsWith(a, "sparc") && (StartsWith(a, "amd64") || StartsWith(a, "x86_64") || StartsWith(a, "ppc")))
    ensures !(StartsWith(a, "arm") && (StartsWith(a, "amd64") || StartsWith(a, "x86_64") || StartsWith(a, "ppc") ||
                                       StartsWith(a, "sparc")))
    ensures !(StartsWith(a, "mips") && (StartsWith(a, "amd64") || StartsWith(a, "x86_64") || StartsWith(a, "ppc") ||
                                        StartsWith(a, "sparc") || StartsWith(a, "arm")))
  {
    Clash(a, "ppc", "amd64", 0);
    Clash(a, "ppc", "x86_64", 0);
    Clash(a, "sparc", "amd64", 0);
    Clash(a, "sparc", "x86_64", 0);
    Clash(a, "sparc", "ppc", 0);
    Clash(a, "arm", "amd64", 1);
    Clash(a, "arm", "x86_64", 0);
    Clash(a, "arm", "ppc", 0);
    Clash(a, "arm", "sparc", 0);
    Clash(a, "mips", "amd64", 0);
    Clash(a, "mips", "x86_64", 0);
    Clash(a, "mips", "ppc", 0);
    Clash(a, "mips", "sparc", 0);
    Clash(a, "mips", "arm", 0);
  }

  /** calculateOS: the first of the prefixes "mac os", "windows", "linux", "sun" the lower-cased name starts with. */
  function CalculateOS(osName: string): (r: OSType)
    ensures r == APPLE <==> StartsWith(Lower(osName), "mac os")
    ensures r == WINDOWS <==> StartsWith(Lower(osName), "windows")
    ensures r == LINUX <==> StartsWith(Lower(osName), "linux")
    ensures r == SUN <==> StartsWith(Lower(osName), "sun")
  {
    var n := Lower(osName);
    OSPrefixesExclusive(n);
    if StartsWith(n, "mac os") then APPLE
    else if StartsWith(n, "windows") then WINDOWS
    else if StartsWith(n, "linux") then LINUX
    else if StartsWith(n, "sun") then SUN
    else OS_UNKNOWN
  }

  /** The architectures named before the "risc" test of calculateArch. */
  predicate NamedArch(a: string)
  {
    a == "i386" || a == "x86" || a == "i686" ||
    StartsWith(a, "amd64") || StartsWith(a, "x86_64") ||
    StartsWith(a, "ppc") || a == "powerpc" ||
    StartsWith(a, "sparc") || StartsWith(a, "arm") || StartsWith(a, "mips")
  }

  /**
   * calculateArch: exact names for x86 and 32-bit PowerPC, prefixes for the
   * others (an exact "ppc" is PPC, any longer "ppc..." PPC_64), and "risc"
   * anywhere in a name none of those match.
   */
  function CalculateArch(osArch: string): (r: ArchType)
    ensures var a := Lower(osArch);
            (r == X86 <==> a == "i386" || a == "x86" || a == "i686") &&
            (r == X86_64 <==> StartsWith(a, "amd64") || StartsWith(a, "x86_64")) &&
            (r == PPC <==> a == "ppc" || a == "powerpc") &&
            (r == PPC_64 <==> StartsWith(a, "ppc") && a != "ppc") &&
            (r == SPARC <==> StartsWith(a, "sparc")) &&
            (r == ARM <==> StartsWith(a, "arm")) &&
            (r == MIPS <==> StartsWith(a, "mips")) &&
            (r == RISC <==> !NamedArch(a) && Contains(a, "risc")) &&
            (r == ARCH_UNKNOWN <==> !NamedArch(a) && !Contains(a, "risc"))
  {
    var a := Lower(osArch);
    ArchPrefixesExclusive(a);
    if a == "i386" || a == "x86" || a == "i686" then X86
    else if StartsWith(a, "amd64") || StartsWith(a, "x86_64") then X86_64
    else if a == "ppc" || a == "powerpc" then PPC
    else if StartsWith(a, "ppc") then PPC_64
    else if StartsWith(a, "sparc") then SPARC
    else if StartsWith(a, "arm") then ARM
    else if StartsWith(a, "mips") then MIPS
    else if Contains(a, "risc") then RISC
    else ARCH_UNKNOWN
  }

  /** The name of an OSType constant. */
  function OSName(os: OSType): string
  {
    match os
    case APPLE => "APPLE"
    case LINUX => "LINUX"
    case SUN => "SUN"
    case WINDOWS => "WINDOWS"
    case OS_UNKNOWN => "UNKNOWN"
  }

  /** The name of an ARCHType constant. */
  function ArchName(arch: ArchType): string
  {
    match arch
    case PPC => "PPC"
    case PPC_64 => "PPC_64"
    case SPARC => "SPARC"
    case X86 => "X86"
    case X86_64 => "X86_64"
    case ARM => "ARM"
    case MIPS => "MIPS"
    case RISC => "RISC"
    case ARCH_UNKNOWN => "UNKNOWN"
  }

  predicate NoDash(s: string)
  {
    forall i | 0 <= i < |s| :: s[i] != '-'
  }

  lemma OSNameUpper(os: OSType)
    ensures UpperName(OSName(os))
  {
    match os
    case APPLE =>
    case LINUX =>
    case SUN =>
    case WINDOWS =>
    case OS_UNKNOWN =>
  }

  lemma ArchNameUpper(arch: ArchType)
    ensures UpperName(ArchName(arch))
  {
    match arch
    case PPC =>
    case PPC_64 =>
    case SPARC =>
    case X86 =>
    case X86_64 =>
    case ARM =>
    case MIPS =>
    case RISC =>
    case ARCH_UNKNOWN =>
  }

  /** Names made of upper-case letters, digits and '_'. */
  predicate UpperName(s: string)
  {
    forall i | 0 <= i < |s| :: 'A' <= s[i] <= 'Z' || '0' <= s[i] <= '9' || s[i] == '_'
  }

  lemma LowerInjectiveOnNames(s: string, t: string)
    requires UpperName(s) && UpperName(t) && Lower(s) == Lower(t)
    ensures s == t
  {
    assert |s| == |t|;
    forall i | 0 <= i < |s| ensures s[i] == t[i] {
      assert LowerChar(s[i]) == LowerChar(t[i]);
    }
  }

  lemma LowerNoDash(s: string)
    requires UpperName(s)
    ensures NoDash(Lower(s))
  {
  }

  /** createLibName: the base name, then "-" and the OS, then "-" and the architecture, both in lower case. */
  function CreateLibName(baseName: string, osName: string, osArch: string): (r: string)
    ensures var os := Lower(OSName(CalculateOS(osName)));
            var arch := Lower(ArchName(CalculateArch(osArch)));
            r == baseName + "-" + os + "-" + arch && NoDash(os) && NoDash(arch)
  {
    var os := Lower(OSName(CalculateOS(osName)));
    var arch := Lower(ArchName(CalculateArch(osArch)));
    OSNameUpper(CalculateOS(osName));
    ArchNameUpper(CalculateArch(osArch));
    LowerNoDash(OSName(CalculateOS(osName)));
    LowerNoDash(ArchName(CalculateArch(osArch)));
    baseName + "-" + os + "-" + arch
  }

  /** The characters of "-" + x + "-" + y. */
  lemma DashedAt(x: string, y: string, i: nat)
    requires i < |x| + 2 + |y|
    ensures ("-" + x + "-" + y)[i] ==
            if i == 0 || i == |x| + 1 then '-' else if i <= |x| then x[i - 1] else y[i - |x| - 2]
  {
  }

  /** Two strings glued with dashes split back apart when the middle part has no dash. */
  lemma SplitAtDash(x1: string, y1: string, x2: string, y2: string)
    requires NoDash(x1) && NoDash(x2)
    requires "-" + x1 + "-" + y1 == "-" + x2 + "-" + y2
    ensures x1 == x2 && y1 == y2
  {
    var t1 := "-" + x1 + "-" + y1;
    var t2 := "-" + x2 + "-" + y2;
    var m := (if |x1| < |x2| then |x1| else |x2|) + 1;
    DashedAt(x1, y1, m);
    DashedAt(x2, y2, m);
    assert |x1| == |x2|;
    assert x1 == t1[1..|x1| + 1] == t2[1..|x2| + 1] == x2;
    assert y1 == t1[|x1| + 2..] == t2[|x2| + 2..] == y2;
  }

  /**
   * The library name determines the classification: with the same base name,
   * two hosts get the same library name exactly when they have the same
   * OSType and the same ARCHType.
   */
  lemma LibNameInjective(baseName: string, os1: string, arch1: string, os2: string, arch2: string)
    ensures CreateLibName(baseName, os1, arch1) == CreateLibName(baseName, os2, arch2) <==>
            CalculateOS(os1) == CalculateOS(os2) && CalculateArch(arch1) == CalculateArch(arch2)
  {
    if CreateLibName(baseName, os1, arch1) == CreateLibName(baseName, os2, arch2) {
      NameSplits(baseName, CalculateOS(os1), CalculateArch(arch1), CalculateOS(os2), CalculateArch(arch2));
    }
  }

  lemma NameSplits(baseName: string, o1: OSType, a1: ArchType, o2: OSType, a2: ArchType)
    requires baseName + "-" + Lower(OSName(o1)) + "-" + Lower(ArchName(a1)) ==
             baseName + "-" + Lower(OSName(o2)) + "-" + Lower(ArchName(a2))
    ensures o1 == o2 && a1 == a2
  {
    var x1, y1 := Lower(OSName(o1)), Lower(ArchName(a1));
    var x2, y2 := Lower(OSName(o2)), Lower(ArchName(a2));
    var n1 := baseName + "-" + x1 + "-" + y1;
    var n2 := baseName + "-" + x2 + "-" + y2;
    assert n1[|baseName|..] == "-" + x1 + "-" + y1;
    assert n2[|baseName|..] == "-" + x2 + "-" + y2;
    OSNameUpper(o1);
    OSNameUpper(o2);
    ArchNameUpper(a1);
    ArchNameUpper(a2);
    LowerNoDash(OSName(o1));
    LowerNoDash(OSName(o2));
    SplitAtDash(x1, y1, x2, y2);
    LowerInjectiveOnNames(OSName(o1), OSName(o2));
    LowerInjectiveOnNames(ArchName(a1), ArchName(a2));
  }
}
