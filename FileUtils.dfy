/** The directory helpers: an existence query and a create-if-missing over
    an abstract set of existing directories, and the search for the first
    free `resultN` folder under a base directory. */
module FileUtils {
  /** The character for a decimal digit. */
  function DigitChar(d: nat): char
    requires d < 10
  {
    (48 + d) as char
  }

  predicate IsDigit(c: char)
  {
    '0' <= c <= '9'
  }

  /** The value of a decimal digit character. */
  function DigitValue(c: char): (d: nat)
    requires IsDigit(c)
    ensures d < 10 && DigitChar(d) == c
  {
    c as int - 48
  }

  /** n in decimal, most significant digit first, without leading zeros:
      what `operator<<` writes for a non-negative int. */
  function NatToDecimal(n: nat): (s: string)
    ensures 1 <= |s|
    ensures forall i :: 0 <= i < |s| ==> IsDigit(s[i])
    ensures n < 10 <==> |s| == 1
  {
    if n < 10 then [DigitChar(n)] else NatToDecimal(n / 10) + [DigitChar(n % 10)]
  }

  /** The value of a string of decimal digits. */
  function DecimalValue(s: string): nat
    requires forall i :: 0 <= i < |s| ==> IsDigit(s[i])
  {
    if s == [] then 0 else DecimalValue(s[..|s| - 1]) * 10 + DigitValue(s[|s| - 1])
  }

  /** Reading the written number back gives the number: the decimal form of
      a folder number identifies it. */
  lemma {:induction false} DecimalRoundTrip(n: nat)
    ensures DecimalValue(NatToDecimal(n)) == n
  {
    if n >= 10 {
      DecimalRoundTrip(n / 10);
      var s := NatToDecimal(n);
      assert s[..|s| - 1] == NatToDecimal(n / 10);
    }
  }

  /** Distinct numbers are written differently. */
  lemma DecimalInjective(a: nat, b: nat)
    ensures NatToDecimal(a) == NatToDecimal(b) <==> a == b
  {
    if NatToDecimal(a) == NatToDecimal(b) {
      DecimalRoundTrip(a);
      DecimalRoundTrip(b);
    }
  }

  /** The directory a path names: `stat` and `mkdir` treat "d/" and "d" alike,
      so one trailing separator is dropped. */
  function Canonical(path: string): (c: string)
    ensures |path| > 1 && path[|path| - 1] == '/' ==> c + "/" == path
    ensures !(|path| > 1 && path[|path| - 1] == '/') ==> c == path
  {
    if |path| > 1 && path[|path| - 1] == '/' then path[..|path| - 1] else path
  }

  /** A path with a separator appended names the same directory as the path. */
  lemma SlashedSameDirectory(path: string)
    requires path != [] && path[|path| - 1] != '/'
    ensures Canonical(path + "/") == path
  {
  }

  /** Whether a directory exists does not depend on one trailing separator. */
  lemma SlashedSameExists(fs: FileSystem, dir: string)
    requires dir != [] && dir[|dir| - 1] != '/'
    ensures fs.DirectoryExists(dir + "/") <==> fs.DirectoryExists(dir)
  {
    SlashedSameDirectory(dir);
  }

  /** `base + "result" + n`, as the string stream builds it. */
  function ResultFolder(base: string, n: nat): (path: string)
    ensures |path| > 1 && IsDigit(path[|path| - 1])
  {
    base + "result" + NatToDecimal(n)
  }

  /** Different folder numbers give different folders under one base. */
  lemma ResultFolderInjective(base: string, a: nat, b: nat)
    ensures ResultFolder(base, a) == ResultFolder(base, b) <==> a == b
  {
    var prefix := base + "result";
    if ResultFolder(base, a) == ResultFolder(base, b) {
      assert NatToDecimal(a) == ResultFolder(base, a)[|prefix|..];
      assert NatToDecimal(b) == ResultFolder(base, b)[|prefix|..];
      DecimalInjective(a, b);
    }
  }

  /** The folders result1 .. resultm under a base. */
  function ResultFolders(base: string, m: nat): set<string>
  {
    if m == 0 then {} else ResultFolders(base, m - 1) + {ResultFolder(base, m)}
  }

  /** resultk is among result1 .. resultm iff 1 <= k <= m. */
  lemma {:induction false} ResultFoldersMembers(base: string, m: nat, k: nat)
    ensures ResultFolder(base, k) in ResultFolders(base, m) <==> 1 <= k <= m
  {
    ResultFolderInjective(base, k, m);
    if m > 0 {
      ResultFoldersMembers(base, m - 1, k);
    }
  }

  /** result1 .. resultm are m different folders. */
  lemma {:induction false} ResultFoldersCount(base: string, m: nat)
    ensures |ResultFolders(base, m)| == m
  {
    if m > 0 {
      ResultFoldersCount(base, m - 1);
      ResultFoldersMembers(base, m - 1, m);
    }
  }

  /** A subset of a finite set is no larger than the set. */
  lemma {:induction false} SubsetSize(a: set<string>, b: set<string>)
    requires a <= b
    ensures |a| <= |b|
    decreases |a|
  {
    if a != {} {
      var x :| x in a;
      SubsetSize(a - {x}, b - {x});
    }
  }

  /** The directories that exist, each named by its canonical path. */
  class FileSystem {
    var directories: set<string>

    constructor(directories: set<string>)
      ensures this.directories == directories
    {
      this.directories := directories;
    }

    /** directoryExists: whether the path names an existing directory. */
    predicate DirectoryExists(dir: string)
      reads this
    {
      Canonical(dir) in directories
    }

    /** createDirectory: an existing directory is reported as created and
        nothing changes; otherwise the outcome of `mkdir` (a parameter, since
        it depends on permissions and parents the model does not track) is
        returned and, on success, the directory now exists. */
    method CreateDirectory(dir: string, mkdirSucceeds: bool) returns (ok: bool)
      modifies this
      ensures old(DirectoryExists(dir)) ==> ok && directories == old(directories)
      ensures !old(DirectoryExists(dir)) ==> ok == mkdirSucceeds
      ensures !old(DirectoryExists(dir)) && mkdirSucceeds ==> directories == old(directories) + {Canonical(dir)}
      ensures !old(DirectoryExists(dir)) && !mkdirSucceeds ==> directories == old(directories)
      ensures ok <==> DirectoryExists(dir)
      ensures ok ==> directories == old(directories) + {Canonical(dir)}
    {
      if DirectoryExists(dir) {
        return true;
      }
      ok := mkdirSucceeds;
      if ok {
        directories := directories + {Canonical(dir)};
      }
    }

    /** findNextResultFolder: counts up from 1 until `base + "result" + n`
        does not exist. The loop ends because only finitely many of those
        folders can exist. */
    method FindNextResultFolder(base: string) returns (n: nat)
      ensures n >= 1
      ensures !DirectoryExists(ResultFolder(base, n))
      ensures forall k :: 1 <= k < n ==> DirectoryExists(ResultFolder(base, k))
    {
      n := 1;
      while DirectoryExists(ResultFolder(base, n))
        invariant n >= 1
        invariant ResultFolders(base, n - 1) <= directories
        invariant forall k :: 1 <= k < n ==> DirectoryExists(ResultFolder(base, k))
        decreases |directories| - (n - 1)
      {
        ResultFoldersCount(base, n);
        SubsetSize(ResultFolders(base, n), directories);
        n := n + 1;
      }
    }
  }
}
