/** The deterministic strings the batch-queue wrapper builds for one call:
    the result-file path, the submission-script path, the command line of the
    wrapped executable and the substitution of that command line into the
    submission-script template. */
module Submission {
  import opened Common
  import opened Numerals
  import opened Paths
  import opened ShellQuote
  import opened Identity

  /** A trajectory as the wrappers see it: its file parts, its structure file
      and its content hash (computed over all parts). */
  datatype Trajectory = Trajectory(trajectoryFiles: seq<string>, structureFile: string, trajectoryHash: nat)

  /** How an identity appears inside an f-string: `None` renders as "None". */
  function IdText(id: Option<string>): string {
    match id
    case None => "None"
    case Some(s) => s
  }

  /** The job name used unless one was set explicitly. */
  function DefaultJobname(id: Option<string>): string {
    "CVfunc_id_" + IdText(id)
  }

  /** The file name of the result file: the first trajectory part's name, the
      first five decimal digits of the trajectory hash and the identity. */
  function ResultName(trajName: string, trajectoryHash: nat, id: Option<string>): string {
    trajName + "_" + Prefix(Decimal(trajectoryHash), 5) + "_CVfunc_id_" + IdText(id)
  }

  /** `os.path.join(tra_dir, f"{tra_name}_{hash_part}_CVfunc_id_{id}")`, where
      `tra_dir, tra_name = os.path.split(trajectory_files[0])`. */
  function ResultFile(firstPart: string, trajectoryHash: nat, id: Option<string>): string {
    var (dir, name) := Split(firstPart);
    Join(dir, ResultName(name, trajectoryHash, id))
  }

  /** `os.path.join(tra_dir, tra_name + "_" + jobname + ".slurm")`. */
  function ScriptFile(firstPart: string, jobname: string): string {
    var (dir, name) := Split(firstPart);
    Join(dir, name + "_" + jobname + ".slurm")
  }

  /** The result file lies in the directory of the first trajectory part and
      is named after that part, the hash prefix and the identity. */
  lemma ResultFileLocation(firstPart: string, trajectoryHash: nat, id: Option<string>)
    requires NoSlash(IdText(id))
    ensures Split(ResultFile(firstPart, trajectoryHash, id))
         == (Split(firstPart).0, ResultName(Split(firstPart).1, trajectoryHash, id))
  {
    var (dir, name) := Split(firstPart);
    SplitParts(firstPart);
    var n := ResultName(name, trajectoryHash, id);
    var digits := Prefix(Decimal(trajectoryHash), 5);
    assert name + "_" + digits + "_CVfunc_id_" + IdText(id) == n;
    assert forall i :: 0 <= i < |digits| ==> digits[i] == Decimal(trajectoryHash)[i];
    assert NoSlash(n) by {
      forall i | 0 <= i < |n| ensures n[i] != '/' {
        if i < |name| {
          assert n[i] == name[i];
        } else if i < |name| + 1 + |digits| && i > |name| {
          assert n[i] == digits[i - |name| - 1];
        } else if i >= |name| + 1 + |digits| + 11 {
          assert n[i] == IdText(id)[i - |name| - 12 - |digits|];
        }
      }
    }
    SplitJoin(dir, n);
  }

  /** The submission script lies in the directory of the first trajectory
      part and is named after that part and the job name. */
  lemma ScriptFileLocation(firstPart: string, jobname: string)
    requires NoSlash(jobname)
    ensures Split(ScriptFile(firstPart, jobname))
         == (Split(firstPart).0, Split(firstPart).1 + "_" + jobname + ".slurm")
  {
    var (dir, name) := Split(firstPart);
    SplitParts(firstPart);
    var n := name + "_" + jobname + ".slurm";
    assert NoSlash(n) by {
      forall i | 0 <= i < |n| ensures n[i] != '/' {
        if i < |name| {
          assert n[i] == name[i];
        } else if i > |name| && i < |name| + 1 + |jobname| {
          assert n[i] == jobname[i - |name| - 1];
        }
      }
    }
    SplitJoin(dir, n);
  }

  /** Two digit strings each followed by '_' can only be matched one against
      the other: the '_' cannot stand where a digit is. */
  lemma {:induction false} DigitsBeforeUnderscore(p: string, q: string, s: string, t: string)
    requires AllDigits(p) && AllDigits(q)
    requires p + "_" + s == q + "_" + t
    ensures p == q && s == t
  {
    var l, r := p + "_" + s, q + "_" + t;
    if |p| < |q| {
      UnderscoreBeforeDigit(p, q, s, t);
      assert false;
    } else if |q| < |p| {
      UnderscoreBeforeDigit(q, p, t, s);
      assert false;
    }
    assert p == l[..|p|] && q == r[..|q|];
    assert s == l[|p| + 1..] && t == r[|q| + 1..];
  }

  /** Where the shorter digit string ends, the longer one still has a digit. */
  lemma UnderscoreBeforeDigit(p: string, q: string, s: string, t: string)
    requires AllDigits(q) && |p| < |q|
    ensures (p + "_" + s)[|p|] != (q + "_" + t)[|p|]
  {
    assert (q + "_" + t)[|p|] == q[|p|];
  }

  /** For one trajectory part, result files coincide exactly when the hash
      prefixes and the identities do: trajectories that share a first part
      but differ in their hash prefix, and wrappers with different
      identities, never share a result file. */
  lemma ResultFileDistinguishes(firstPart: string, h1: nat, h2: nat, id1: Option<string>, id2: Option<string>)
    requires NoSlash(IdText(id1)) && NoSlash(IdText(id2))
    ensures ResultFile(firstPart, h1, id1) == ResultFile(firstPart, h2, id2)
        <==> Prefix(Decimal(h1), 5) == Prefix(Decimal(h2), 5) && IdText(id1) == IdText(id2)
  {
    if ResultFile(firstPart, h1, id1) == ResultFile(firstPart, h2, id2) {
      ResultFileLocation(firstPart, h1, id1);
      ResultFileLocation(firstPart, h2, id2);
      ResultNameInjective(Split(firstPart).1, h1, h2, id1, id2);
    }
  }

  lemma ResultNameInjective(name: string, h1: nat, h2: nat, id1: Option<string>, id2: Option<string>)
    requires ResultName(name, h1, id1) == ResultName(name, h2, id2)
    ensures Prefix(Decimal(h1), 5) == Prefix(Decimal(h2), 5) && IdText(id1) == IdText(id2)
  {
    PrefixDigits(Decimal(h1), 5);
    PrefixDigits(Decimal(h2), 5);
    NameParts(name, Prefix(Decimal(h1), 5), Prefix(Decimal(h2), 5), IdText(id1), IdText(id2));
  }

  lemma PrefixDigits(d: string, k: nat)
    requires AllDigits(d)
    ensures AllDigits(Prefix(d, k))
  {
    var p := Prefix(d, k);
    assert forall i :: 0 <= i < |p| ==> p[i] == d[i];
  }

  /** The digits and the identity text can be read back from a result name. */
  lemma NameParts(name: string, p: string, q: string, a: string, b: string)
    requires AllDigits(p) && AllDigits(q)
    requires name + "_" + p + "_CVfunc_id_" + a == name + "_" + q + "_CVfunc_id_" + b
    ensures p == q && a == b
  {
    var s, t := "CVfunc_id_" + a, "CVfunc_id_" + b;
    var l, r := name + "_" + p + "_CVfunc_id_" + a, name + "_" + q + "_CVfunc_id_" + b;
    assert l == (name + "_") + (p + "_" + s);
    assert r == (name + "_") + (q + "_" + t);
    assert p + "_" + s == l[|name| + 1..];
    assert q + "_" + t == r[|name| + 1..];
    DigitsBeforeUnderscore(p, q, s, t);
    assert a == s[10..] && b == t[10..];
  }

  // ---------------------------------------------------------------------
  // The command line

  /** The positional part: executable, structure file, trajectory parts and
      result file, separated by single blanks. */
  function CmdHead(executable: string, traj: Trajectory, resultFile: string): string {
    executable + " " + traj.structureFile + " " + JoinSpace(traj.trajectoryFiles) + " " + resultFile
  }

  /** How a value is written: quoted, or for a list its quoted elements
      joined by blanks. */
  function ValueText(v: KwValue): string {
    match v
    case Scalar(t) => Quote(t)
    case ListOf(items, _) => JoinSpace(QuoteAll(items))
  }

  /** `f" {key} {value}"`: keys are written as they are, never quoted. */
  function ArgText(a: Arg): string {
    " " + a.key + " " + ValueText(a.value)
  }

  /** The texts of a sequence of items, concatenated in order. */
  function ConcatMap<T>(s: seq<T>, f: T -> string): string {
    if s == [] then "" else ConcatMap(s[..|s| - 1], f) + f(s[|s| - 1])
  }

  /** The keyword part, entry by entry in dict order. */
  function KwargsText(s: seq<Arg>): string {
    ConcatMap(s, ArgText)
  }

  /** The whole command line written into the submission script. */
  function CmdLine(executable: string, traj: Trajectory, resultFile: string, kwargs: seq<Arg>): string {
    CmdHead(executable, traj, resultFile) + KwargsText(kwargs)
  }

  /** The words one value contributes. */
  function ValueWords(v: KwValue): seq<string> {
    match v
    case Scalar(t) => [t]
    case ListOf(items, _) => items
  }

  /** The argument vector the executable is meant to receive. */
  function KwargsArgv(s: seq<Arg>): seq<string> {
    if s == [] then [] else [s[0].key] + ValueWords(s[0].value) + KwargsArgv(s[1..])
  }

  function Argv(executable: string, traj: Trajectory, resultFile: string, kwargs: seq<Arg>): seq<string> {
    [executable, traj.structureFile] + traj.trajectoryFiles + [resultFile] + KwargsArgv(kwargs)
  }

  /** `cmd_str` is built by appending one entry after the other. */
  method BuildCmdStr(executable: string, traj: Trajectory, resultFile: string, kwargs: seq<Arg>)
    returns (cmd: string)
    ensures cmd == CmdLine(executable, traj, resultFile, kwargs)
  {
    cmd := executable + " " + traj.structureFile;
    cmd := cmd + " " + JoinSpace(traj.trajectoryFiles) + " " + resultFile;
    ghost var head := cmd;
    if |kwargs| > 0 {
      var i := 0;
      while i < |kwargs|
        invariant 0 <= i <= |kwargs|
        invariant cmd == head + ConcatMap(kwargs[..i], ArgText)
      {
        ConcatMapPrefix(kwargs, i + 1, ArgText);
        var piece := WriteArg(kwargs[i]);
        Associate(head, ConcatMap(kwargs[..i], ArgText), piece);
        cmd := cmd + piece;
        i := i + 1;
      }
      assert kwargs[..i] == kwargs;
    }
  }

  /** One entry of the keyword loop: lists are written element by element. */
  method WriteArg(a: Arg) returns (piece: string)
    ensures piece == ArgText(a)
  {
    var text;
    match a.value {
      case ListOf(items, _) =>
        text := JoinSpace(QuoteAll(items));
      case Scalar(t) =>
        text := Quote(t);
    }
    piece := " " + a.key + " " + text;
  }

  lemma Associate(a: string, b: string, c: string)
    ensures (a + b) + c == a + (b + c)
  {
  }

  /** One more item adds its text at the end. */
  lemma ConcatMapPrefix<T>(s: seq<T>, i: nat, f: T -> string)
    requires 0 < i <= |s|
    ensures ConcatMap(s[..i], f) == ConcatMap(s[..i - 1], f) + f(s[i - 1])
  {
    assert s[..i][..i - 1] == s[..i - 1];
  }

  lemma {:induction false} ConcatMapConcat<T>(p: seq<T>, q: seq<T>, f: T -> string)
    ensures ConcatMap(p + q, f) == ConcatMap(p, f) + ConcatMap(q, f)
    decreases |q|
  {
    if q == [] {
      assert p + q == p;
    } else {
      var q' := q[..|q| - 1];
      assert (p + q)[..|p + q| - 1] == p + q';
      assert (p + q)[|p + q| - 1] == q[|q| - 1];
      ConcatMapConcat(p, q', f);
    }
  }

  lemma KwargsTextCons(s: seq<Arg>)
    requires s != []
    ensures KwargsText(s) == ArgText(s[0]) + KwargsText(s[1..])
  {
    ConcatMapCons(s, ArgText);
  }

  lemma ConcatMapCons<T>(s: seq<T>, f: T -> string)
    requires s != []
    ensures ConcatMap(s, f) == f(s[0]) + ConcatMap(s[1..], f)
  {
    ConcatMapConcat([s[0]], s[1..], f);
    ConcatMapSingle(s[0], f);
    assert [s[0]] + s[1..] == s;
  }

  lemma ConcatMapSingle<T>(x: T, f: T -> string)
    ensures ConcatMap([x], f) == f(x)
  {
    assert [x][..0] == [];
  }

  lemma KwargsTextStart(s: seq<Arg>)
    ensures WordEnd(KwargsText(s))
  {
    if s != [] {
      KwargsTextCons(s);
    }
  }

  /** A safe word in front of a blank or the end is that word. */
  lemma WordsSafe(w: string, r: string)
    requires SafeWord(w) && WordEnd(r)
    ensures Words(w + r) == Prepend(w, Words(r))
  {
    QuoteSafeWord(w);
    WordsQuote(w, r);
  }

  lemma WordsBlank(r: string)
    ensures Words(" " + r) == Words(r)
  {
    assert (" " + r)[1..] == r;
  }

  lemma {:induction false} QuoteAllSafe(xs: seq<string>)
    requires forall i :: 0 <= i < |xs| ==> SafeWord(xs[i])
    ensures QuoteAll(xs) == xs
  {
    if xs != [] {
      QuoteSafeWord(xs[0]);
      QuoteAllSafe(xs[1..]);
    }
  }

  /** One entry is read back as its key followed by its value's words. */
  lemma ArgWords(a: Arg, r: string)
    requires SafeWord(a.key) && WordEnd(r)
    ensures Words(ArgText(a) + r) == AppendWords([a.key] + ValueWords(a.value), Words(r))
  {
    var v := ValueText(a.value);
    assert ArgText(a) + r == " " + (a.key + (" " + (v + r)));
    WordsBlank(a.key + (" " + (v + r)));
    WordsSafe(a.key, " " + (v + r));
    WordsBlank(v + r);
    match a.value {
      case Scalar(t) =>
        WordsQuote(t, r);
        match Words(r) {
          case None =>
          case Some(ws) => assert [a.key] + ([t] + ws) == [a.key] + [t] + ws;
        }
      case ListOf(items, _) =>
        WordsJoinQuoted(items, r);
        match Words(r) {
          case None =>
          case Some(ws) => assert [a.key] + (items + ws) == [a.key] + items + ws;
        }
    }
  }

  /** The keyword part is read back as key, value words, key, value words, ... */
  lemma {:induction false} KwargsWords(s: seq<Arg>)
    requires forall i :: 0 <= i < |s| ==> SafeWord(s[i].key)
    ensures Words(KwargsText(s)) == Some(KwargsArgv(s))
    decreases |s|
  {
    if s != [] {
      KwargsTextCons(s);
      KwargsTextStart(s[1..]);
      ArgWords(s[0], KwargsText(s[1..]));
      KwargsWords(s[1..]);
    }
  }

  /** The command line, read by the shell, gives the executable exactly the
      argument vector it is documented to receive, provided the executable,
      the file paths and the keys are plain safe words (they are written
      unquoted); every value, whatever its characters, arrives as written. */
  lemma CmdLineWords(executable: string, traj: Trajectory, resultFile: string, kwargs: seq<Arg>)
    requires SafeWord(executable) && SafeWord(traj.structureFile) && SafeWord(resultFile)
    requires forall i :: 0 <= i < |traj.trajectoryFiles| ==> SafeWord(traj.trajectoryFiles[i])
    requires forall i :: 0 <= i < |kwargs| ==> SafeWord(kwargs[i].key)
    ensures Words(CmdLine(executable, traj, resultFile, kwargs))
         == Some(Argv(executable, traj, resultFile, kwargs))
  {
    var files := traj.trajectoryFiles;
    var k := KwargsText(kwargs);
    KwargsTextStart(kwargs);
    KwargsWords(kwargs);
    var kw := KwargsArgv(kwargs);
    var t3 := " " + (resultFile + k);
    var t2 := JoinSpace(files) + t3;
    var t1 := " " + (traj.structureFile + (" " + t2));
    NestRight(executable, traj.structureFile, JoinSpace(files), resultFile, k);
    WordsSafe(resultFile, k);
    WordsBlank(resultFile + k);
    QuoteAllSafe(files);
    WordsJoinQuoted(files, t3);
    WordsBlank(t2);
    WordsSafe(traj.structureFile, " " + t2);
    WordsBlank(traj.structureFile + (" " + t2));
    WordsSafe(executable, t1);
    NestWords(executable, traj.structureFile, files, resultFile, kw);
  }

  lemma NestRight(e: string, s: string, j: string, r: string, k: string)
    ensures e + " " + s + " " + j + " " + r + k == e + (" " + (s + (" " + (j + (" " + (r + k))))))
  {
  }

  lemma NestWords(e: string, s: string, files: seq<string>, r: string, kw: seq<string>)
    ensures [e] + ([s] + (files + ([r] + kw))) == [e, s] + files + [r] + kw
  {
  }

  // ---------------------------------------------------------------------
  // The submission-script template

  predicate NoBraces(s: string) {
    forall i :: 0 <= i < |s| ==> s[i] != '{' && s[i] != '}'
  }

  function PrependText(p: string, r: Option<string>): Option<string> {
    match r
    case None => None
    case Some(s) => Some(p + s)
  }

  /** `template.format(cmd_str=cmd)`: `{{` and `}}` stand for single braces,
      `{cmd_str}` for the command line. Any other replacement field (another
      name, a positional field, a conversion or a format spec) and any lone
      brace is a formatting error here. */
  function FormatTemplate(t: string, cmd: string): Option<string>
    decreases |t|
  {
    if t == [] then Some([])
    else if t[0] == '{' then
      if |t| >= 2 && t[1] == '{' then PrependText("{", FormatTemplate(t[2..], cmd))
      else if |t| >= 9 && t[..9] == "{cmd_str}" then PrependText(cmd, FormatTemplate(t[9..], cmd))
      else None
    else if t[0] == '}' then
      if |t| >= 2 && t[1] == '}' then PrependText("}", FormatTemplate(t[2..], cmd))
      else None
    else PrependText([t[0]], FormatTemplate(t[1..], cmd))
  }

  /** Text without braces is copied unchanged. */
  lemma {:induction false} FormatPlainText(a: string, r: string, cmd: string)
    requires NoBraces(a)
    ensures FormatTemplate(a + r, cmd) == PrependText(a, FormatTemplate(r, cmd))
    decreases |a|
  {
    if a == [] {
      assert a + r == r;
      match FormatTemplate(r, cmd) {
        case None =>
        case Some(s) => assert a + s == s;
      }
    } else {
      assert (a + r)[0] == a[0] && (a + r)[1..] == a[1..] + r;
      FormatPlainText(a[1..], r, cmd);
      match FormatTemplate(r, cmd) {
        case None =>
        case Some(s) => assert [a[0]] + (a[1..] + s) == a + s;
      }
    }
  }

  /** A template with one `{cmd_str}` and no other braces becomes the text
      around it with the command line in its place. */
  lemma FormatSinglePlaceholder(a: string, b: string, cmd: string)
    requires NoBraces(a) && NoBraces(b)
    ensures FormatTemplate(a + "{cmd_str}" + b, cmd) == Some(a + cmd + b)
  {
    var t := "{cmd_str}" + b;
    assert a + "{cmd_str}" + b == a + t;
    FormatPlainText(a, t, cmd);
    assert t[0] == '{' && t[1] == 'c';
    assert t[..9] == "{cmd_str}" && t[9..] == b;
    FormatPlainText(b, [], cmd);
    assert b + [] == b;
    assert FormatTemplate(b, cmd) == Some(b);
    assert FormatTemplate(t, cmd) == Some(cmd + b);
    assert a + (cmd + b) == a + cmd + b;
  }

  /** A template without `{cmd_str}` (and without braces) formats without
      error, but the script then does not contain the command at all. */
  lemma FormatWithoutPlaceholder(a: string, cmd: string)
    requires NoBraces(a)
    ensures FormatTemplate(a, cmd) == Some(a)
  {
    FormatPlainText(a, [], cmd);
    assert a + [] == a;
  }
}
