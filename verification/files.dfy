/**
 * The upload view. Validity is derived from the upload descriptor each time it
 * is asked for: the field must be present, its name's extension (ignoring case)
 * one of jpg, png, gif, pdf, txt, zip, its size at most 5 MiB and its transfer
 * error code UPLOAD_ERR_OK. Moving a valid upload creates the target directory
 * when needed, then checks, in a fixed order, that the directory could be made
 * and written, that the temporary file exists, that the directory is writable
 * and that the rename succeeded, raising a `RuntimeException` at the first
 * failure.
 *
 * The view reads the uploads superglobal rather than its own bag, so the
 * uploads are an explicit argument; what the filesystem would answer is the
 * `FsFacts` argument, and the filesystem calls made are returned as `FsOp`s.
 */
module Files {
  import opened Wrappers
  import opened Php
  import opened Failures

  /** One entry of the uploads array: `name`, `size`, `tmp_name`, `error`. */
  datatype Upload = Upload(name: string, size: int, tmpName: string, error: int)

  const UploadErrOk := 0
  const AllowedExtensions := ["jpg", "png", "gif", "pdf", "txt", "zip"]
  const MaxFileSize := 5 * 1024 * 1024

  /** `in_array(strtolower(pathinfo($name, PATHINFO_EXTENSION)), ALLOWED_EXTENSIONS, true)`. */
  predicate ExtensionAllowed(name: string) {
    ToLower(Extension(name)) in AllowedExtensions
  }

  /** `isValid`. */
  predicate IsValid(uploads: map<string, Upload>, key: string) {
    && key in uploads
    && ExtensionAllowed(uploads[key].name)
    && uploads[key].size <= MaxFileSize
    && uploads[key].error == UploadErrOk
  }

  /** What the filesystem answers while an upload is moved. */
  datatype FsFacts = FsFacts(
    isDir: bool,          // the target directory already exists
    mkdirSucceeds: bool,  // creating it succeeds
    writable: bool,       // it is writable once it exists
    tmpExists: bool,      // the temporary upload file exists
    renameSucceeds: bool) // moving the temporary file succeeds

  /** A filesystem call `move` makes. */
  datatype FsOp = MakeDirectory(path: string) | Rename(from: string, to: string)

  /** The target directory with every trailing '/' replaced by exactly one. */
  function TargetDirectory(target: string): string {
    RTrimChar(target, '/') + "/"
  }

  /** Where the upload lands: the target directory plus the basename of the client-declared name. */
  function Destination(target: string, name: string): string {
    TargetDirectory(target) + Basename(name)
  }

  /** `move`: false for an invalid upload, otherwise the move of that upload. */
  function Move(uploads: map<string, Upload>, key: string, target: string, fs: FsFacts)
    : (r: (Outcome<bool>, seq<FsOp>))
    ensures !IsValid(uploads, key) ==> r == (Ok(false), [])
    ensures r.0.Ok? ==> (r.0.value <==> IsValid(uploads, key))
    ensures r.0.Err? ==> r.0.error.className == RuntimeClass
  {
    if !IsValid(uploads, key) then (Ok(false), [])
    else
      var f := uploads[key];
      MoveTo(f.tmpName, TargetDirectory(target), Destination(target, f.name), fs)
  }

  /**
   * The body of `move` once the upload is valid, with the temporary file, the
   * directory and the destination already worked out.
   */
  function MoveTo(tmp: string, dir: string, dest: string, fs: FsFacts): (r: (Outcome<bool>, seq<FsOp>))
    ensures r.0.Ok? ==> r.0.value
    ensures r.0.Err? ==> r.0.error.className == RuntimeClass
  {
    var made := if fs.isDir then [] else [MakeDirectory(dir)];
    var moved := made + [Rename(tmp, dest)];
    if !fs.isDir && (!fs.mkdirSucceeds || !fs.writable) then
      (Err(Raise(DirectoryUnusable(dir))), made)
    else if !fs.tmpExists then
      (Err(Raise(TemporaryFileMissing(tmp))), made)
    else if !fs.writable then
      (Err(Raise(DirectoryNotWritable(dir))), made)
    else if !fs.renameSucceeds then
      (Err(Raise(RenameFailed(dest))), moved)
    else
      (Ok(true), moved)
  }

  /**
   * Moving yields the first failing check of `MoveChecks`, in order, or true;
   * the directory is created exactly when it did not exist, and the rename is
   * attempted exactly when the first three checks passed, after any directory
   * creation.
   */
  lemma MoveFollowsChecks(tmp: string, dir: string, dest: string, fs: FsFacts)
    ensures var r := MoveTo(tmp, dir, dest, fs);
            var checks := MoveChecks(tmp, dir, dest, fs);
            && r.0 == Verdict(checks)
            && r.1 == (if fs.isDir then [] else [MakeDirectory(dir)])
                      + (if Passed(checks[..3]) then [Rename(tmp, dest)] else [])
  {
    var checks := MoveChecks(tmp, dir, dest, fs);
    assert checks[..3] == [checks[0], checks[1], checks[2]];
    VerdictOfFour(checks[0], checks[1], checks[2], checks[3]);
  }

  // ---------------------------------------------------------------------------
  // The failure checks as an ordered list
  // ---------------------------------------------------------------------------

  /** What can go wrong while moving, with the path the message names. */
  datatype Problem =
    | DirectoryUnusable(dir: string)
    | TemporaryFileMissing(tmp: string)
    | DirectoryNotWritable(dir: string)
    | RenameFailed(dest: string)

  function Message(p: Problem): string {
    match p
    case DirectoryUnusable(dir) => "Cannot create or write to directory: " + dir
    case TemporaryFileMissing(tmp) => "Temporary file does not exist: " + tmp
    case DirectoryNotWritable(dir) => "Target directory is not writable: " + dir
    case RenameFailed(dest) => "Failed to move uploaded file to: " + dest
  }

  /** The `RuntimeException` a problem raises. */
  function Raise(p: Problem): Failure {
    RuntimeException(Message(p))
  }

  datatype Check = Check(passes: bool, problem: Problem)

  /** The four checks of `move`, in the order they run, with the problem each reports. */
  function MoveChecks(tmp: string, dir: string, dest: string, fs: FsFacts): (cs: seq<Check>)
    ensures |cs| == 4
  {
    [ Check(fs.isDir || (fs.mkdirSucceeds && fs.writable), DirectoryUnusable(dir)),
      Check(fs.tmpExists, TemporaryFileMissing(tmp)),
      Check(fs.writable, DirectoryNotWritable(dir)),
      Check(fs.renameSucceeds, RenameFailed(dest)) ]
  }

  predicate Passed(cs: seq<Check>) {
    forall i :: 0 <= i < |cs| ==> cs[i].passes
  }

  /** Runs checks in order: the first failing one raises; if none fails the result is true. */
  function Verdict(cs: seq<Check>): (r: Outcome<bool>)
    ensures r.Ok? <==> Passed(cs)
    ensures r.Ok? ==> r.value
  {
    if cs == [] then Ok(true)
    else if !cs[0].passes then Err(Raise(cs[0].problem))
    else
      assert forall i :: 1 <= i < |cs| ==> cs[i] == cs[1..][i - 1];
      Verdict(cs[1..])
  }

  /** The failure raised is that of the first check that fails. */
  lemma {:induction false} VerdictIsFirstFailure(cs: seq<Check>, i: nat)
    requires i < |cs| && !cs[i].passes && Passed(cs[..i])
    ensures Verdict(cs) == Err(Raise(cs[i].problem))
  {
    if i > 0 {
      assert cs[0] == cs[..i][0];
      assert cs[1..][..i - 1] == cs[..i][1..];
      VerdictIsFirstFailure(cs[1..], i - 1);
    }
  }

  lemma VerdictOfFour(c0: Check, c1: Check, c2: Check, c3: Check)
    ensures Verdict([c0, c1, c2, c3])
         == if !c0.passes then Err(Raise(c0.problem))
            else if !c1.passes then Err(Raise(c1.problem))
            else if !c2.passes then Err(Raise(c2.problem))
            else if !c3.passes then Err(Raise(c3.problem))
            else Ok(true)
  {
    var cs := [c0, c1, c2, c3];
    assert cs[1..] == [c1, c2, c3];
    assert [c1, c2, c3][1..] == [c2, c3];
    assert [c2, c3][1..] == [c3];
    assert [c3][1..] == [];
    if c0.passes {
      assert Verdict(cs) == Verdict([c1, c2, c3]);
      if c1.passes {
        assert Verdict([c1, c2, c3]) == Verdict([c2, c3]);
        if c2.passes {
          assert Verdict([c2, c3]) == Verdict([c3]);
        }
      }
    }
  }

  // ---------------------------------------------------------------------------
  // Properties
  // ---------------------------------------------------------------------------

  /** The target directory ends in exactly one '/', and the file name part holds no '/'. */
  lemma DestinationShape(target: string, name: string)
    ensures var dir := TargetDirectory(target);
            && Destination(target, name) == dir + Basename(name)
            && |dir| >= 1 && dir[|dir| - 1] == '/'
            && (|dir| == 1 || dir[|dir| - 2] != '/')
            && '/' !in Basename(name)
  {
    var t := RTrimChar(target, '/');
    var dir := t + "/";
    assert dir[|dir| - 1] == '/';
    if |dir| > 1 {
      assert dir[|dir| - 2] == t[|t| - 1];
    }
  }

  /** A target without a trailing '/' just gains one. */
  lemma TargetWithoutSlash(target: string)
    requires target != [] && target[|target| - 1] != '/'
    ensures TargetDirectory(target) == target + "/"
  {
  }

  /** A move that reports true made every check pass and renamed the temporary file into place last. */
  lemma SuccessfulMoveRenamedLast(uploads: map<string, Upload>, key: string, target: string, fs: FsFacts)
    requires Move(uploads, key, target, fs).0 == Ok(true)
    ensures IsValid(uploads, key)
    ensures fs.tmpExists && fs.writable && fs.renameSucceeds
    ensures var ops := Move(uploads, key, target, fs).1;
            |ops| > 0 && ops[|ops| - 1] == Rename(uploads[key].tmpName, Destination(target, uploads[key].name))
  {
    var f := uploads[key];
    var dir, dest := TargetDirectory(target), Destination(target, f.name);
    MoveFollowsChecks(f.tmpName, dir, dest, fs);
    var checks := MoveChecks(f.tmpName, dir, dest, fs);
    assert Passed(checks);
    assert Passed(checks[..3]);
  }

  /** An existing directory that is not writable fails only after the temporary-file check, with its own message. */
  lemma ExistingReadOnlyDirectory(uploads: map<string, Upload>, key: string, target: string, fs: FsFacts)
    requires IsValid(uploads, key)
    requires fs.isDir && fs.tmpExists && !fs.writable
    ensures Move(uploads, key, target, fs)
         == (Err(Raise(DirectoryNotWritable(TargetDirectory(target)))), [])
  {
    var f := uploads[key];
    var dir, dest := TargetDirectory(target), Destination(target, f.name);
    assert Move(uploads, key, target, fs) == MoveTo(f.tmpName, dir, dest, fs);
  }

  /** A missing field is invalid and moving it does nothing. */
  lemma MissingFieldIsInvalid(uploads: map<string, Upload>, key: string, target: string, fs: FsFacts)
    requires key !in uploads
    ensures !IsValid(uploads, key)
    ensures Move(uploads, key, target, fs) == (Ok(false), [])
  {
  }

  /**
   * The upload test's cases, for any file stem without a '/': a small `.jpg`
   * upload is valid; too large, an extension not on the list, or a transfer
   * error makes it invalid.
   */
  lemma UploadCases(uploads: map<string, Upload>, key: string, stem: string, tmp: string)
    requires '/' !in stem
    ensures IsValid(uploads[key := Upload(stem + ".jpg", 1024, tmp, UploadErrOk)], key)
    ensures IsValid(uploads[key := Upload(stem + ".jpg", MaxFileSize, tmp, UploadErrOk)], key)
    ensures !IsValid(uploads[key := Upload(stem + ".jpg", 6 * 1024 * 1024, tmp, UploadErrOk)], key)
    ensures !IsValid(uploads[key := Upload(stem + ".exe", 512, tmp, UploadErrOk)], key)
    ensures !IsValid(uploads[key := Upload(stem + ".jpg", 1024, tmp, 4)], key)
  {
    JpgAllowed(stem);
    ExeRefused(stem);
  }

  lemma JpgAllowed(stem: string)
    requires '/' !in stem
    ensures ExtensionAllowed(stem + ".jpg")
  {
    DottedExtension(stem, ".jpg");
    JpgListed(Extension(stem + ".jpg"));
  }

  lemma ExeRefused(stem: string)
    requires '/' !in stem
    ensures !ExtensionAllowed(stem + ".exe")
  {
    DottedExtension(stem, ".exe");
    ExeUnlisted(Extension(stem + ".exe"));
  }

  lemma JpgListed(e: string)
    requires e == "jpg"
    ensures ToLower(e) in AllowedExtensions
  {
    assert ToLower("jpg") == "jpg";
    assert AllowedExtensions[0] == "jpg";
  }

  lemma ExeUnlisted(e: string)
    requires e == "exe"
    ensures ToLower(e) !in AllowedExtensions
  {
    assert ToLower("exe") == "exe";
  }

  /** `pathinfo` reads the text after the last '.' of a slash-free name as its extension. */
  lemma DottedExtension(stem: string, suffix: string)
    requires '/' !in stem && '/' !in suffix
    requires |suffix| >= 2 && suffix[0] == '.' && '.' !in suffix[1..]
    ensures Extension(stem + suffix) == suffix[1..]
  {
    var n := stem + suffix;
    assert n[|n| - 1] == suffix[|suffix| - 1];
    assert RTrimChar(n, '/') == n;
    assert '/' !in n by {
      forall i | 0 <= i < |n| ensures n[i] != '/' {
        if i < |stem| { assert n[i] == stem[i]; }
        else { assert n[i] == suffix[i - |stem|]; }
      }
    }
    AfterLastAbsent(n, '/');
    assert n[|stem|] == '.';
    AfterLastOf(stem, suffix, '.');
  }

  lemma AfterLastAbsent(s: string, c: char)
    requires c !in s
    ensures AfterLast(s, c) == s
  {
    var r := AfterLast(s, c);
    if |r| < |s| {
      assert false;
    }
  }

  /** The part after the last `c` of `x + y`, where `y` starts with the last `c`. */
  lemma AfterLastOf(x: string, y: string, c: char)
    requires |y| > 0 && y[0] == c && c !in y[1..]
    ensures AfterLast(x + y, c) == y[1..]
  {
    var s := x + y;
    var t := y[1..];
    var r := AfterLast(s, c);
    assert s[|s| - |t| - 1] == c;
    if |r| > |t| {
      assert false;
    } else if |r| < |t| {
      assert false;
    }
    assert r == s[|s| - |t|..] == t;
  }

  /** The extension gate ignores case: a name is allowed iff its lower-cased form is. */
  lemma ExtensionIgnoresCase(name: string)
    ensures ExtensionAllowed(name) <==> ExtensionAllowed(ToLower(name))
  {
    ExtensionOfLower(name);
    LowerIdempotent(Extension(name));
  }

  // ---------------------------------------------------------------------------
  // `strtolower` commutes with the path functions ('/' and '.' are not letters)
  // ---------------------------------------------------------------------------

  predicate NotLetter(c: char) {
    !IsAsciiUpper(c) && !IsAsciiLower(c)
  }

  lemma LowerIdempotent(s: string)
    ensures ToLower(ToLower(s)) == ToLower(s)
  {
  }

  lemma LowerSplit(a: string, x: char)
    ensures ToLower(a + [x]) == ToLower(a) + [ToLowerChar(x)]
  {
  }

  lemma LowerKeepsNonLetters(s: string, c: char)
    requires NotLetter(c)
    ensures c in ToLower(s) <==> c in s
  {
    if c in s {
      var i :| 0 <= i < |s| && s[i] == c;
      assert ToLower(s)[i] == c;
    }
    if c in ToLower(s) {
      var i :| 0 <= i < |s| && ToLower(s)[i] == c;
      assert s[i] == c;
    }
  }

  lemma {:induction false} RTrimLower(s: string, c: char)
    requires NotLetter(c)
    ensures RTrimChar(ToLower(s), c) == ToLower(RTrimChar(s, c))
    decreases |s|
  {
    if s != [] {
      var front := s[..|s| - 1];
      assert ToLower(s)[..|s| - 1] == ToLower(front);
      if s[|s| - 1] == c {
        RTrimLower(front, c);
      }
    }
  }

  lemma {:induction false} AfterLastLower(s: string, c: char)
    requires NotLetter(c)
    ensures AfterLast(ToLower(s), c) == ToLower(AfterLast(s, c))
    decreases |s|
  {
    if s != [] {
      var front, x := s[..|s| - 1], s[|s| - 1];
      var ls := ToLower(s);
      assert ls[..|s| - 1] == ToLower(front);
      assert ls[|s| - 1] == ToLowerChar(x);
      if x == c {
        assert ls[|ls| - 1] == c;
      } else {
        assert ls[|ls| - 1] != c;
        assert AfterLast(ls, c) == AfterLast(ToLower(front), c) + [ToLowerChar(x)];
        AfterLastLower(front, c);
        LowerSplit(AfterLast(front, c), x);
      }
    }
  }

  /** The extension of the lower-cased name is the lower-cased extension. */
  lemma ExtensionOfLower(name: string)
    ensures Extension(ToLower(name)) == ToLower(Extension(name))
  {
    RTrimLower(name, '/');
    AfterLastLower(RTrimChar(name, '/'), '/');
    var base := Basename(name);
    LowerKeepsNonLetters(base, '.');
    AfterLastLower(base, '.');
  }
}
