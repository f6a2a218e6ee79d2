/** The image saver: remembers the next free `resultN` folder under a base
    directory and, on every save, creates that folder, writes the colour
    image, the depth colour map and the depth dump into it, and moves on to
    the next number. Image pixels are not modelled: a save reports the files
    it writes to and the depth dump it produces. */
module ImageSaver {
  import opened FileUtils
  import opened DepthFrames
  import opened DepthDump

  /** The folder of save number n, with the separator the file names follow. */
  function SaveFolder(base: string, n: nat): (folder: string)
    ensures Canonical(folder) == ResultFolder(base, n)
  {
    SlashedSameDirectory(ResultFolder(base, n));
    ResultFolder(base, n) + "/"
  }

  /** The three files one save writes, in the order it writes them. */
  function SaveTargets(folder: string): (targets: seq<string>)
    ensures |targets| == 3
    ensures forall i :: 0 <= i < 3 ==> |folder| < |targets[i]| && targets[i][..|folder|] == folder
  {
    [folder + "color.png", folder + "depth_colormap.png", folder + "depth.bin"]
  }

  /** Two saves with different numbers write to disjoint sets of files, and
      one save writes three different files: a save never overwrites what
      another save wrote. */
  lemma SaveTargetsDisjoint(base: string, a: nat, b: nat)
    ensures a != b ==> forall i, j :: 0 <= i < 3 && 0 <= j < 3 ==>
      SaveTargets(SaveFolder(base, a))[i] != SaveTargets(SaveFolder(base, b))[j]
    ensures forall i, j :: 0 <= i < j < 3 ==>
      SaveTargets(SaveFolder(base, a))[i] != SaveTargets(SaveFolder(base, a))[j]
  {
    var ta, tb := SaveTargets(SaveFolder(base, a)), SaveTargets(SaveFolder(base, b));
    if a != b {
      forall i, j | 0 <= i < 3 && 0 <= j < 3
        ensures ta[i] != tb[j]
      {
        if ta[i] == tb[j] {
          SameFileSameFolder(base, a, b, ta[i]);
        }
      }
    }
    var fa := SaveFolder(base, a);
    assert ta[0][|fa|] == 'c' && ta[1][|fa|] == 'd' && ta[2][|fa|] == 'd';
    assert ta[1][|fa| + 5] == '_' && ta[2][|fa| + 5] == '.';
  }

  /** The length of the run of digits in s starting at position i. */
  function DigitRun(s: string, i: nat): nat
    decreases |s| - i
  {
    if i < |s| && IsDigit(s[i]) then 1 + DigitRun(s, i + 1) else 0
  }

  /** n digits followed by a non-digit make a run of exactly n. */
  lemma {:induction false} DigitRunExact(s: string, i: nat, n: nat)
    requires i + n < |s| && !IsDigit(s[i + n])
    requires forall k :: i <= k < i + n ==> IsDigit(s[k])
    ensures DigitRun(s, i) == n
    decreases n
  {
    if n > 0 {
      DigitRunExact(s, i + 1, n - 1);
    }
  }

  /** A path inside save folder n carries n's digits right after
      `base + "result"`, and exactly that many digits. */
  lemma FolderDigits(base: string, n: nat, path: string)
    requires |SaveFolder(base, n)| <= |path| && path[..|SaveFolder(base, n)|] == SaveFolder(base, n)
    ensures var start, digits := |base + "result"|, NatToDecimal(n);
      start + |digits| <= |path| && path[start..start + |digits|] == digits &&
      DigitRun(path, start) == |digits|
  {
    var prefix, digits := base + "result", NatToDecimal(n);
    var folder := SaveFolder(base, n);
    assert folder == prefix + digits + "/";
    assert forall k :: |prefix| <= k < |prefix| + |digits| ==> path[k] == folder[k] == digits[k - |prefix|];
    assert path[|prefix| + |digits|] == folder[|prefix| + |digits|] == '/';
    DigitRunExact(path, |prefix|, |digits|);
    assert digits == folder[|prefix|..|prefix| + |digits|] == path[|prefix|..|prefix| + |digits|];
  }

  /** A path lies in at most one save folder: the folder's number is the run
      of digits after `base + "result"`, which the separator ends. */
  lemma SameFileSameFolder(base: string, a: nat, b: nat, path: string)
    requires |SaveFolder(base, a)| <= |path| && path[..|SaveFolder(base, a)|] == SaveFolder(base, a)
    requires |SaveFolder(base, b)| <= |path| && path[..|SaveFolder(base, b)|] == SaveFolder(base, b)
    ensures a == b
  {
    FolderDigits(base, a, path);
    FolderDigits(base, b, path);
    DecimalInjective(a, b);
  }

  class ImageSaver {
    const baseDirectory: string
    const fs: FileSystem
    var folderNumber: int

    /** Folder numbers start at 1 and only grow. */
    predicate Valid()
      reads this
    {
      folderNumber >= 1
    }

    /** The saver starts at the first folder number whose folder does not
        exist yet. */
    constructor(baseDirectory: string, fs: FileSystem)
      ensures this.baseDirectory == baseDirectory && this.fs == fs && Valid()
      ensures !fs.DirectoryExists(ResultFolder(baseDirectory, folderNumber))
      ensures forall k :: 1 <= k < folderNumber ==> fs.DirectoryExists(ResultFolder(baseDirectory, k))
    {
      this.baseDirectory := baseDirectory;
      this.fs := fs;
      var n := fs.FindNextResultFolder(baseDirectory);
      folderNumber := n;
    }

    /** prepareFolder: creates the base directory if it is missing; the
        folder number does not move. */
    method PrepareFolder(mkdirSucceeds: bool) returns (ok: bool)
      modifies fs
      ensures ok <==> old(fs.DirectoryExists(baseDirectory)) || mkdirSucceeds
      ensures ok <==> fs.DirectoryExists(baseDirectory)
      ensures ok ==> fs.directories == old(fs.directories) + {Canonical(baseDirectory)}
      ensures !ok ==> fs.directories == old(fs.directories)
    {
      ok := fs.CreateDirectory(baseDirectory, mkdirSucceeds);
    }

    /** saveImages: if the folder of the current number cannot be created,
        nothing is written and the number stays; otherwise the three files
        are written into it, whatever the writes report, and the number
        advances by one. */
    method SaveImages(frame: DepthFrame, mkdirSucceeds: bool, binOpened: bool)
      returns (ok: bool, targets: seq<string>, depthBin: seq<Field>)
      requires Valid() && frame.Valid()
      modifies this, fs
      ensures Valid()
      ensures ok <==> old(fs.DirectoryExists(ResultFolder(baseDirectory, folderNumber))) || mkdirSucceeds
      ensures !ok ==> (targets == [] && depthBin == [] &&
                       folderNumber == old(folderNumber) && fs.directories == old(fs.directories))
      ensures ok ==> (targets == SaveTargets(SaveFolder(baseDirectory, old(folderNumber))) &&
                      depthBin == (if binOpened then DepthDump.DepthDump(frame) else []) &&
                      folderNumber == old(folderNumber) + 1 &&
                      fs.DirectoryExists(ResultFolder(baseDirectory, old(folderNumber))) &&
                      fs.directories == old(fs.directories) + {ResultFolder(baseDirectory, old(folderNumber))})
    {
      var resultFolder := SaveFolder(baseDirectory, folderNumber);
      var created := fs.CreateDirectory(resultFolder, mkdirSucceeds);
      if !created {
        return false, [], [];
      }
      targets := SaveTargets(resultFolder);
      depthBin := SaveDepthToBin(frame, binOpened);
      folderNumber := folderNumber + 1;
      ok := true;
    }

    /** getCurrentFolderNumber: the number the next save will use. */
    function GetCurrentFolderNumber(): (n: int)
      reads this
      requires Valid()
      ensures n >= 1 && n == folderNumber
    {
      folderNumber
    }
  }
}
