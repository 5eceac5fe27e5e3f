/** Where the PDF and markdown artifacts of trans/utils/pdf.py live, which
    text a PDF is rendered from, and the form sent to the print service.

    Paths are built from the media root, the contest slug, the task name,
    the task type and a username.  `ISC` is the username of the shared
    translation; its final artifacts have no username in their name. */
module Pdf {

  import Translate

  /** The username of the shared translation. */
  const Sentinel: string := "ISC"

  predicate NoSlash(s: string)
  {
    '/' !in s
  }

  // ---------------------------------------------------------------------
  // Python's str.split('/') and its inverse, '/'.join

  function Join(parts: seq<string>): (s: string)
    requires |parts| >= 1
  {
    if |parts| == 1 then parts[0] else parts[0] + "/" + Join(parts[1..])
  }

  /** Python's `s.split('/')`: the maximal slash-free pieces of `s`, in
      order. */
  function Split(s: string): (parts: seq<string>)
    ensures |parts| >= 1
    ensures forall k :: 0 <= k < |parts| ==> NoSlash(parts[k])
  {
    if |s| == 0 then [""]
    else
      var rest := Split(s[1..]);
      if s[0] == '/' then [""] + rest
      else [[s[0]] + rest[0]] + rest[1..]
  }

  /** Joining the pieces of `s` with '/' gives `s` back. */
  lemma {:induction false} JoinSplit(s: string)
    ensures Join(Split(s)) == s
  {
    if |s| > 0 {
      JoinSplit(s[1..]);
      var rest := Split(s[1..]);
      assert s == [s[0]] + s[1..];
      if s[0] == '/' {
        assert ([""] + rest)[1..] == rest;
      } else {
        var parts := [[s[0]] + rest[0]] + rest[1..];
        assert |rest| > 1 ==> parts[1..] == rest[1..] && rest == [rest[0]] + rest[1..];
      }
    }
  }

  /** The last slash-free piece of a path (`file_path.split('/')[-1]`). */
  function FileNameFromPath(path: string): (name: string)
    ensures NoSlash(name)
    ensures |name| <= |path| && path[|path| - |name|..] == name
    ensures |name| < |path| ==> path[|path| - |name| - 1] == '/'
  {
    var parts := Split(path);
    JoinSplit(path);
    JoinEndsWithLast(parts);
    parts[|parts| - 1]
  }

  lemma {:induction false} JoinEndsWithLast(parts: seq<string>)
    requires |parts| >= 1
    ensures var s, last := Join(parts), parts[|parts| - 1];
            |last| <= |s| && s[|s| - |last|..] == last &&
            (|parts| > 1 ==> |last| < |s| && s[|s| - |last| - 1] == '/')
  {
    if |parts| > 1 {
      JoinEndsWithLast(parts[1..]);
      var rest := Join(parts[1..]);
      var s := parts[0] + "/" + rest;
      assert s[|s| - |rest|..] == rest;
      assert s[|s| - |rest| - 1] == '/';
    }
  }

  lemma {:induction false} SplitNoSlash(s: string)
    requires NoSlash(s)
    ensures Split(s) == [s]
  {
    if |s| > 0 {
      assert NoSlash(s[1..]) by {
        forall k | 0 <= k < |s| - 1 ensures s[1..][k] != '/' { assert s[1..][k] == s[k + 1]; }
      }
      SplitNoSlash(s[1..]);
      assert [s[0]] + s[1..] == s;
    }
  }

  /** Splitting at a slash splits the two halves separately. */
  lemma {:induction false} SplitAtSlash(a: string, b: string)
    ensures Split(a + "/" + b) == Split(a) + Split(b)
  {
    var s := a + "/" + b;
    if |a| == 0 {
      assert s == "/" + b;
      assert s[1..] == b;
    } else {
      assert s[1..] == a[1..] + "/" + b;
      SplitAtSlash(a[1..], b);
    }
  }

  /** Splitting a joined list of slash-free pieces gives the pieces. */
  lemma {:induction false} SplitJoin(parts: seq<string>)
    requires |parts| >= 1
    requires forall k :: 0 <= k < |parts| ==> NoSlash(parts[k])
    ensures Split(Join(parts)) == parts
  {
    SplitNoSlash(parts[0]);
    if |parts| > 1 {
      SplitJoin(parts[1..]);
      SplitAtSlash(parts[0], Join(parts[1..]));
      assert parts == [parts[0]] + parts[1..];
    }
  }

  /** The file name of `dir + "/" + name` is `name`. */
  lemma FileNameAfterSlash(dir: string, name: string)
    requires NoSlash(name)
    ensures FileNameFromPath(dir + "/" + name) == name
  {
    SplitAtSlash(dir, name);
    SplitNoSlash(name);
  }

  // ---------------------------------------------------------------------
  // Artifact paths

  predicate IsPrefix(p: string, s: string)
  {
    |p| <= |s| && s[..|p|] == p
  }

  predicate IsSuffix(p: string, s: string)
  {
    |p| <= |s| && s[|s| - |p|..] == p
  }

  /** `'{}/{}'.format(a, b)`; the path builders are written with it, one
      slash at a time. */
  function Slash(a: string, b: string): string
  {
    a + "/" + b
  }

  /** The directory `output_pdf_path` creates:
      `{media root}/output/{contest}/{task}/{task type}`. */
  function OutputDir(mediaRoot: string, contestSlug: string, taskName: string, taskType: string): string
  {
    Slash(Slash(Slash(Slash(mediaRoot, "output"), contestSlug), taskName), taskType)
  }

  /** `output_pdf_path`: the draft PDF of `username` for one task and task
      type. */
  function OutputPdfPath(mediaRoot: string, contestSlug: string, taskName: string, taskType: string,
                         username: string): (path: string)
    ensures IsPrefix(mediaRoot + "/output/", path)
    ensures IsSuffix("-" + username + ".pdf", path)
  {
    var filePath := OutputDir(mediaRoot, contestSlug, taskName, taskType);
    var fileName := taskName + "-" + username + ".pdf";
    var rest := contestSlug + "/" + taskName + "/" + taskType + "/" + taskName;
    assert Slash(filePath, fileName) == (mediaRoot + "/output/") + rest + ("-" + username + ".pdf");
    Slash(filePath, fileName)
  }

  /** `released_pdf_path`: the draft PDF of the released task text. */
  function ReleasedPdfPath(mediaRoot: string, contestSlug: string, taskName: string, username: string): (path: string)
    ensures path == OutputPdfPath(mediaRoot, contestSlug, taskName, "released", username)
  {
    OutputPdfPath(mediaRoot, contestSlug, taskName, "released", username)
  }

  /** `unreleased_pdf_path`: the draft PDF of a translation in progress. */
  function UnreleasedPdfPath(mediaRoot: string, contestSlug: string, taskName: string, username: string): (path: string)
    ensures path == OutputPdfPath(mediaRoot, contestSlug, taskName, "task", username)
  {
    OutputPdfPath(mediaRoot, contestSlug, taskName, "task", username)
  }

  /** `base_pdf_path`: the draft PDF of the shared translation, which is
      an ordinary output path for the username `ISC`. */
  function BasePdfPath(mediaRoot: string, contestSlug: string, taskName: string, taskType: string): (path: string)
    ensures path == OutputPdfPath(mediaRoot, contestSlug, taskName, taskType, Sentinel)
  {
    OutputPdfPath(mediaRoot, contestSlug, taskName, taskType, Sentinel)
  }

  /** The directory `{media root}/final/{kind}/{contest}` both final
      layouts start from. */
  function FinalDir(mediaRoot: string, kind: string, contestSlug: string): string
  {
    Slash(Slash(Slash(mediaRoot, "final"), kind), contestSlug)
  }

  /** `final_pdf_path` and `final_markdown_path`, for the kind `pdf` with
      extension `.pdf` and for `markdown` with `.md`: for `ISC` the file
      sits in the contest's directory and is named after the task alone;
      anyone else's sits in a directory of the task and carries the
      username. */
  function FinalPath(mediaRoot: string, kind: string, ext: string, contestSlug: string, taskName: string,
                     username: string): (path: string)
    ensures IsPrefix(mediaRoot + "/final/" + kind + "/" + contestSlug + "/", path)
    ensures IsSuffix(ext, path)
  {
    var dir := FinalDir(mediaRoot, kind, contestSlug);
    var prefix := mediaRoot + "/final/" + kind + "/" + contestSlug + "/";
    assert dir + "/" == prefix;
    if username == Sentinel then
      var fileName := taskName + ext;
      assert Slash(dir, fileName) == prefix + taskName + ext;
      Slash(dir, fileName)
    else
      var fileName := taskName + "-" + username + ext;
      assert Slash(Slash(dir, taskName), fileName) == prefix + (taskName + "/" + taskName + "-" + username) + ext;
      Slash(Slash(dir, taskName), fileName)
  }

  /** `final_pdf_path`: the final PDF of `username`. */
  function FinalPdfPath(mediaRoot: string, contestSlug: string, taskName: string, username: string): (path: string)
    ensures IsPrefix(mediaRoot + "/final/pdf/" + contestSlug + "/", path)
    ensures IsSuffix(".pdf", path)
  {
    FinalPath(mediaRoot, "pdf", ".pdf", contestSlug, taskName, username)
  }

  /** `final_markdown_path`: the final markdown of `username`, laid out as
      the final PDF is. */
  function FinalMarkdownPath(mediaRoot: string, contestSlug: string, taskName: string, username: string): (path: string)
    ensures IsPrefix(mediaRoot + "/final/markdown/" + contestSlug + "/", path)
    ensures IsSuffix(".md", path)
  {
    FinalPath(mediaRoot, "markdown", ".md", contestSlug, taskName, username)
  }

  // ---------------------------------------------------------------------
  // Lemmas about the paths

  /** Splitting `a/b` for a slash-free `b` adds `b` as the last piece. */
  lemma SplitAppend(a: string, b: string)
    requires NoSlash(b)
    ensures Split(Slash(a, b)) == Split(a) + [b]
  {
    SplitAtSlash(a, b);
    SplitNoSlash(b);
  }

  /** An output directory has the pieces media root, `output`, contest,
      task and task type. */
  lemma OutputDirShape(mediaRoot: string, contestSlug: string, taskName: string, taskType: string)
    requires NoSlash(contestSlug) && NoSlash(taskName) && NoSlash(taskType)
    ensures Split(OutputDir(mediaRoot, contestSlug, taskName, taskType)) ==
            Split(mediaRoot) + ["output", contestSlug, taskName, taskType]
  {
    var m := Split(mediaRoot);
    var a := Slash(mediaRoot, "output");
    var b := Slash(a, contestSlug);
    var c := Slash(b, taskName);
    assert NoSlash("output");
    SplitAppend(mediaRoot, "output");
    SplitAppend(a, contestSlug);
    assert Split(b) == m + ["output", contestSlug];
    SplitAppend(b, taskName);
    assert Split(c) == m + ["output", contestSlug, taskName];
    SplitAppend(c, taskType);
  }

  /** An output path has the pieces media root, `output`, contest, task,
      task type and `task-username.pdf`. */
  lemma OutputPdfPathShape(mediaRoot: string, contestSlug: string, taskName: string, taskType: string, username: string)
    requires NoSlash(contestSlug) && NoSlash(taskName) && NoSlash(taskType) && NoSlash(username)
    ensures Split(OutputPdfPath(mediaRoot, contestSlug, taskName, taskType, username)) ==
            Split(mediaRoot) + ["output", contestSlug, taskName, taskType, taskName + "-" + username + ".pdf"]
  {
    var fileName := taskName + "-" + username + ".pdf";
    assert NoSlash(fileName);
    OutputDirShape(mediaRoot, contestSlug, taskName, taskType);
    SplitAppend(OutputDir(mediaRoot, contestSlug, taskName, taskType), fileName);
  }

  /** Round trip: the file name of an output path is `task-username.pdf`. */
  lemma OutputPdfFileName(mediaRoot: string, contestSlug: string, taskName: string, taskType: string, username: string)
    requires NoSlash(taskName) && NoSlash(username)
    ensures FileNameFromPath(OutputPdfPath(mediaRoot, contestSlug, taskName, taskType, username)) ==
            taskName + "-" + username + ".pdf"
  {
    var fileName := taskName + "-" + username + ".pdf";
    assert NoSlash(fileName);
    FileNameAfterSlash(OutputDir(mediaRoot, contestSlug, taskName, taskType), fileName);
  }

  /** Released drafts and drafts of a translation in progress never share
      a path. */
  lemma ReleasedNeverUnreleased(mediaRoot: string, contestSlug: string, taskName: string, username: string,
                                contestSlug': string, taskName': string, username': string)
    requires NoSlash(contestSlug) && NoSlash(taskName) && NoSlash(username)
    requires NoSlash(contestSlug') && NoSlash(taskName') && NoSlash(username')
    ensures ReleasedPdfPath(mediaRoot, contestSlug, taskName, username) !=
            UnreleasedPdfPath(mediaRoot, contestSlug', taskName', username')
  {
    OutputPdfPathShape(mediaRoot, contestSlug, taskName, "released", username);
    OutputPdfPathShape(mediaRoot, contestSlug', taskName', "task", username');
    var n := |Split(mediaRoot)|;
    assert Split(ReleasedPdfPath(mediaRoot, contestSlug, taskName, username))[n + 3] == "released";
    assert Split(UnreleasedPdfPath(mediaRoot, contestSlug', taskName', username'))[n + 3] == "task";
  }

  /** For the same contest, task and user, the released draft and the
      draft of the translation in progress are different files, whatever
      characters the arguments hold. */
  lemma ReleasedDiffersFromUnreleased(mediaRoot: string, contestSlug: string, taskName: string, username: string)
    ensures ReleasedPdfPath(mediaRoot, contestSlug, taskName, username) !=
            UnreleasedPdfPath(mediaRoot, contestSlug, taskName, username)
  {
    var d := Slash(Slash(Slash(mediaRoot, "output"), contestSlug), taskName) + "/";
    var f := "/" + taskName + "-" + username + ".pdf";
    var p := ReleasedPdfPath(mediaRoot, contestSlug, taskName, username);
    var q := UnreleasedPdfPath(mediaRoot, contestSlug, taskName, username);
    assert p == d + "released" + f;
    assert q == d + "task" + f;
    assert p[|d|] == 'r';
    assert q[|d|] == 't';
  }

  /** Two users never share a draft path. */
  lemma OutputPdfPathPerUser(mediaRoot: string, contestSlug: string, taskName: string, taskType: string,
                             username: string, username': string)
    requires username != username'
    ensures OutputPdfPath(mediaRoot, contestSlug, taskName, taskType, username) !=
            OutputPdfPath(mediaRoot, contestSlug, taskName, taskType, username')
  {
    var dir := OutputDir(mediaRoot, contestSlug, taskName, taskType) + "/" + taskName + "-";
    var p := OutputPdfPath(mediaRoot, contestSlug, taskName, taskType, username);
    var p' := OutputPdfPath(mediaRoot, contestSlug, taskName, taskType, username');
    assert p == dir + username + ".pdf";
    assert p' == dir + username' + ".pdf";
    assert p[|dir|..|p| - 4] == username;
    assert p'[|dir|..|p'| - 4] == username';
  }

  lemma FinalDirShape(mediaRoot: string, kind: string, contestSlug: string)
    requires NoSlash(kind) && NoSlash(contestSlug)
    ensures Split(FinalDir(mediaRoot, kind, contestSlug)) == Split(mediaRoot) + ["final", kind, contestSlug]
  {
    var a := Slash(mediaRoot, "final");
    var b := Slash(a, kind);
    assert NoSlash("final");
    SplitAppend(mediaRoot, "final");
    SplitAppend(a, kind);
    assert Split(b) == Split(mediaRoot) + ["final", kind];
    SplitAppend(b, contestSlug);
  }

  /** A final path has the pieces media root, `final`, the kind, contest,
      then task and `task-username` with the extension, or for `ISC` only
      the task with the extension. */
  lemma FinalPathShape(mediaRoot: string, kind: string, ext: string, contestSlug: string, taskName: string,
                       username: string)
    requires NoSlash(kind) && NoSlash(ext) && NoSlash(contestSlug) && NoSlash(taskName) && NoSlash(username)
    ensures username == Sentinel ==>
              Split(FinalPath(mediaRoot, kind, ext, contestSlug, taskName, username)) ==
              Split(mediaRoot) + ["final", kind, contestSlug, taskName + ext]
    ensures username != Sentinel ==>
              Split(FinalPath(mediaRoot, kind, ext, contestSlug, taskName, username)) ==
              Split(mediaRoot) + ["final", kind, contestSlug, taskName, taskName + "-" + username + ext]
  {
    var dir := FinalDir(mediaRoot, kind, contestSlug);
    FinalDirShape(mediaRoot, kind, contestSlug);
    if username == Sentinel {
      var fileName := taskName + ext;
      assert NoSlash(fileName);
      SplitAppend(dir, fileName);
    } else {
      var fileName := taskName + "-" + username + ext;
      assert NoSlash(fileName);
      SplitAppend(dir, taskName);
      SplitAppend(Slash(dir, taskName), fileName);
    }
  }

  /** A final PDF path has the pieces media root, `final`, `pdf`, contest,
      then task and `task-username.pdf`, or for `ISC` only `task.pdf`. */
  lemma FinalPdfPathShape(mediaRoot: string, contestSlug: string, taskName: string, username: string)
    requires NoSlash(contestSlug) && NoSlash(taskName) && NoSlash(username)
    ensures username == Sentinel ==>
              Split(FinalPdfPath(mediaRoot, contestSlug, taskName, username)) ==
              Split(mediaRoot) + ["final", "pdf", contestSlug, taskName + ".pdf"]
    ensures username != Sentinel ==>
              Split(FinalPdfPath(mediaRoot, contestSlug, taskName, username)) ==
              Split(mediaRoot) + ["final", "pdf", contestSlug, taskName, taskName + "-" + username + ".pdf"]
  {
    assert NoSlash("pdf") && NoSlash(".pdf");
    FinalPathShape(mediaRoot, "pdf", ".pdf", contestSlug, taskName, username);
  }

  /** A final markdown path mirrors the final PDF path, with `markdown`
      for `pdf` and `.md` for `.pdf`. */
  lemma FinalMarkdownPathShape(mediaRoot: string, contestSlug: string, taskName: string, username: string)
    requires NoSlash(contestSlug) && NoSlash(taskName) && NoSlash(username)
    ensures username == Sentinel ==>
              Split(FinalMarkdownPath(mediaRoot, contestSlug, taskName, username)) ==
              Split(mediaRoot) + ["final", "markdown", contestSlug, taskName + ".md"]
    ensures username != Sentinel ==>
              Split(FinalMarkdownPath(mediaRoot, contestSlug, taskName, username)) ==
              Split(mediaRoot) + ["final", "markdown", contestSlug, taskName, taskName + "-" + username + ".md"]
  {
    assert NoSlash("markdown") && NoSlash(".md");
    FinalPathShape(mediaRoot, "markdown", ".md", contestSlug, taskName, username);
  }

  /** Round trip: the file name of a final PDF path is `task-username.pdf`,
      or `task.pdf` for `ISC`. */
  lemma FinalPdfFileName(mediaRoot: string, contestSlug: string, taskName: string, username: string)
    requires NoSlash(taskName) && NoSlash(username)
    ensures FileNameFromPath(FinalPdfPath(mediaRoot, contestSlug, taskName, username)) ==
            if username == Sentinel then taskName + ".pdf" else taskName + "-" + username + ".pdf"
  {
    FinalFileName(mediaRoot, "pdf", ".pdf", contestSlug, taskName, username);
  }

  /** Round trip: the file name of a final markdown path is
      `task-username.md`, or `task.md` for `ISC`. */
  lemma FinalMarkdownFileName(mediaRoot: string, contestSlug: string, taskName: string, username: string)
    requires NoSlash(taskName) && NoSlash(username)
    ensures FileNameFromPath(FinalMarkdownPath(mediaRoot, contestSlug, taskName, username)) ==
            if username == Sentinel then taskName + ".md" else taskName + "-" + username + ".md"
  {
    FinalFileName(mediaRoot, "markdown", ".md", contestSlug, taskName, username);
  }

  /** The file name of a final path is `task-username.ext`, or `task.ext`
      for `ISC`, whatever the directories above it are. */
  lemma FinalFileName(mediaRoot: string, kind: string, ext: string, contestSlug: string, taskName: string,
                      username: string)
    requires NoSlash(ext) && NoSlash(taskName) && NoSlash(username)
    ensures FileNameFromPath(FinalPath(mediaRoot, kind, ext, contestSlug, taskName, username)) ==
            if username == Sentinel then taskName + ext else taskName + "-" + username + ext
  {
    var dir := FinalDir(mediaRoot, kind, contestSlug);
    if username == Sentinel {
      var fileName := taskName + ext;
      assert NoSlash(fileName);
      FileNameAfterSlash(dir, fileName);
    } else {
      var fileName := taskName + "-" + username + ext;
      assert NoSlash(fileName);
      FileNameAfterSlash(Slash(dir, taskName), fileName);
    }
  }

  /** No user's final PDF is the shared `ISC` one. */
  lemma FinalPdfNeverShared(mediaRoot: string, contestSlug: string, taskName: string, username: string,
                            contestSlug': string, taskName': string)
    requires username != Sentinel
    requires NoSlash(contestSlug) && NoSlash(taskName) && NoSlash(username)
    requires NoSlash(contestSlug') && NoSlash(taskName')
    ensures FinalPdfPath(mediaRoot, contestSlug, taskName, username) !=
            FinalPdfPath(mediaRoot, contestSlug', taskName', Sentinel)
  {
    FinalPdfPathShape(mediaRoot, contestSlug, taskName, username);
    FinalPdfPathShape(mediaRoot, contestSlug', taskName', Sentinel);
  }

  // ---------------------------------------------------------------------
  // Content selection and the print form

  /** `render_pdf_template`'s choice of text: the task's published text
      for the type `released`, otherwise the latest text of the requested
      user's translation `tid`. */
  function PdfContent(taskType: string, publishedText: string, versions: seq<Translate.Version>,
                      particles: seq<Translate.Particle>, tid: nat): (content: Translate.Option<string>)
    ensures taskType == "released" ==> content == Translate.Some(publishedText)
    ensures taskType != "released" ==> content == Translate.LatestText(versions, particles, tid)
  {
    if taskType == "released" then Translate.Some(publishedText)
    else Translate.LatestText(versions, particles, tid)
  }

  /** A draft PDF shows the text of the last autosave, and a released PDF
      is not affected by it. */
  lemma PdfShowsAutosave(taskType: string, publishedText: string, versions: seq<Translate.Version>,
                         particles: seq<Translate.Particle>, tid: nat, content: string, now: int, freshId: nat)
    ensures var after := Translate.Autosave(particles, tid, content, now, freshId);
            PdfContent(taskType, publishedText, versions, after, tid) ==
            if taskType == "released" then Translate.Some(publishedText) else Translate.Some(content)
  {
    Translate.AutosaveResolves(versions, particles, tid, content, now, freshId);
  }

  /** The form fields `send_pdf_to_printer` posts besides the file. */
  datatype PrintForm = PrintForm(countryCode: string, countryName: string, coverPage: int, count: int)

  function PrintFormFields(countryCode: string, countryName: string, coverPage: bool, count: int): (form: PrintForm)
    ensures form.coverPage == 0 || form.coverPage == 1
    ensures form.coverPage == 1 <==> coverPage
    ensures form.count == count
    ensures form.countryCode == countryCode && form.countryName == countryName
  {
    PrintForm(countryCode, countryName, if coverPage then 1 else 0, count)
  }

  /** The form of a call that leaves `cover_page` and `count` at their
      defaults: no cover page, one copy. */
  function DefaultPrintForm(countryCode: string, countryName: string): (form: PrintForm)
    ensures form == PrintForm(countryCode, countryName, 0, 1)
  {
    PrintFormFields(countryCode, countryName, false, 1)
  }
}
