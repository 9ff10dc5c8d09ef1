/** The trajectory function wrappers: a wrapped Python callable and a wrapped
    executable run through SLURM. Each keeps its keyword arguments and an
    identity that changes whenever they, the function source or the
    executable change. Foreign calls (blake2b, `inspect.getsource`,
    `ensure_executable_available`, reading files, the batch system, numpy
    loading) are parameters. */
module FunctionWrapper {
  import opened Common
  import opened Numerals
  import opened Paths
  import opened Identity
  import opened Submission

  /** The exceptions the wrappers raise, with the details their messages carry. */
  datatype WrapperError =
    | AttributeTypeMismatch(name: string, given: string, default: string)
    | NotADict
    | NotATrajectory(given: string)
    | SourceTypeError
    | TemplateUnreadable(path: string)
    | ExecutableUnavailable(name: string)
    | ExecutableUnreadable(path: string)
    | NoTrajectoryFiles
    | TemplateFormat
    | ScriptUnwritable(path: string)
    | NonZeroExit(executable: string, traj: Trajectory, jobId: string, code: int, stderr: string, stdout: string)
    | Cancelled
    | BatchError(message: string)
    | SlurmProcUnbound
    | ScriptMissing(path: string)
    | ResultMissing(path: string)
    | ResultUnreadable(path: string)
    | LoaderFailed(path: string)

  // ---------------------------------------------------------------------
  // Attributes set through `**kwargs` of the base initializer

  /** A Python value as far as `isinstance(value, type(default))` looks at
      it; `Instance(t)` is a value of a type `t` other than `str` and
      `NoneType`. */
  datatype PyValue = NoneValue | Text(s: string) | Instance(typeName: OtherType)

  type OtherType = t: string | t != "str" && t != "NoneType" witness "dict"

  function TypeName(v: PyValue): string {
    match v
    case NoneValue => "NoneType"
    case Text(_) => "str"
    case Instance(t) => t
  }

  /** `isinstance(value, type(default))`, for exact types. */
  predicate IsInstance(value: PyValue, default: PyValue) {
    TypeName(value) == TypeName(default)
  }

  /** The attributes an object has at the time the keyword loop runs. */
  type Attrs = map<string, PyValue>

  /** An object as the keyword loop sees it: its attributes, and whether its
      class has the `slurm_jobname` property, which reads `_slurm_jobname`
      (the default name while that is `None`) and writes to it. */
  datatype PyObject = PyObject(attrs: Attrs, jobnameProperty: bool)

  /** `getattr(obj, name, default)`, with `None` for the default. While the
      loop runs the identity is still `None`, so the default job name is
      `CVfunc_id_None`. */
  function GetAttr(o: PyObject, k: string): Option<PyValue> {
    if o.jobnameProperty && k == "slurm_jobname" then
      if "_slurm_jobname" in o.attrs && !o.attrs["_slurm_jobname"].NoneValue? then Some(o.attrs["_slurm_jobname"])
      else Some(Text(DefaultJobname(None)))
    else if k in o.attrs then Some(o.attrs[k])
    else None
  }

  /** `setattr(obj, name, value)`. */
  function SetAttr(o: PyObject, k: string, v: PyValue): PyObject {
    if o.jobnameProperty && k == "slurm_jobname" then o.(attrs := o.attrs["_slurm_jobname" := v])
    else o.(attrs := o.attrs[k := v])
  }

  /** The attributes the base initializer sets before its loop. */
  function BaseAttrs(classAttrs: Attrs): Attrs {
    classAttrs["_id" := NoneValue]["_call_kwargs" := Instance("dict")]
  }

  /** A Python wrapper when its keyword loop starts. */
  function PySeed(classAttrs: Attrs): PyObject {
    PyObject(BaseAttrs(classAttrs), false)
  }

  /** A SLURM wrapper when its keyword loop starts: `_slurm_jobname` is set
      first, so that the loop can reset it, then the base attributes. */
  function SlurmSeed(classAttrs: Attrs): PyObject {
    PyObject(BaseAttrs(classAttrs["_slurm_jobname" := NoneValue]), true)
  }

  /** The keyword loop entry by entry: an existing attribute is overwritten
      when the new value has the default's type, a mismatch stops with a
      `TypeError`, and names without an attribute are skipped. */
  function InitKwargs(o: PyObject, kwargs: seq<(string, PyValue)>): Result<PyObject, WrapperError>
    decreases |kwargs|
  {
    if kwargs == [] then Success(o)
    else
      var (k, v) := kwargs[0];
      match GetAttr(o, k)
      case None => InitKwargs(o, kwargs[1..])
      case Some(cur) =>
        if IsInstance(v, cur) then InitKwargs(SetAttr(o, k, v), kwargs[1..])
        else Failure(AttributeTypeMismatch(k, TypeName(v), TypeName(cur)))
  }

  method ApplyInitKwargs(o: PyObject, kwargs: seq<(string, PyValue)>) returns (r: Result<PyObject, WrapperError>)
    ensures r == InitKwargs(o, kwargs)
  {
    var current := o;
    var i := 0;
    while i < |kwargs|
      invariant 0 <= i <= |kwargs|
      invariant InitKwargs(current, kwargs[i..]) == InitKwargs(o, kwargs)
    {
      var (k, v) := kwargs[i];
      assert kwargs[i..][1..] == kwargs[i + 1..];
      var cur := GetAttr(current, k);
      if cur.Some? {
        if IsInstance(v, cur.value) {
          current := SetAttr(current, k, v);
        } else {
          return Failure(AttributeTypeMismatch(k, TypeName(v), TypeName(cur.value)));
        }
      }
      i := i + 1;
    }
    return Success(current);
  }

  predicate NamesUnique(kwargs: seq<(string, PyValue)>) {
    forall i, j :: 0 <= i < j < |kwargs| ==> kwargs[i].0 != kwargs[j].0
  }

  /** The entry would be refused by the object as it is. */
  predicate Mismatch(o: PyObject, kv: (string, PyValue)) {
    GetAttr(o, kv.0).Some? && !IsInstance(kv.1, GetAttr(o, kv.0).value)
  }

  /** When the class has the job-name property, `_slurm_jobname` exists and
      no entry names it, so that entries act on separate attributes. */
  predicate Separate(o: PyObject, kwargs: seq<(string, PyValue)>) {
    o.jobnameProperty ==>
      "_slurm_jobname" in o.attrs && forall i :: 0 <= i < |kwargs| ==> kwargs[i].0 != "_slurm_jobname"
  }

  /** The value given for a name, if any. */
  function Given(kwargs: seq<(string, PyValue)>, k: string): Option<PyValue> {
    if kwargs == [] then None
    else if kwargs[0].0 == k then Some(kwargs[0].1)
    else Given(kwargs[1..], k)
  }

  /** Setting one name leaves what the others read alone, except that the
      job-name property reads `_slurm_jobname`. */
  lemma GetAttrAfterSet(o: PyObject, k: string, v: PyValue, k2: string)
    requires k2 != k && !(o.jobnameProperty && (k == "_slurm_jobname" || k2 == "_slurm_jobname"))
    ensures GetAttr(SetAttr(o, k, v), k2) == GetAttr(o, k2)
  {
  }

  /** A value of the default's type reads back as set, also through the
      property, because it is not `None`. */
  lemma GetAttrSet(o: PyObject, k: string, v: PyValue)
    requires GetAttr(o, k).Some? && IsInstance(v, GetAttr(o, k).value)
    ensures GetAttr(SetAttr(o, k, v), k) == Some(v)
  {
  }

  /** For a dict of keyword arguments, the loop fails exactly when some entry
      names an existing attribute with a value of another type. */
  lemma {:induction false} InitKwargsFails(o: PyObject, kwargs: seq<(string, PyValue)>)
    requires NamesUnique(kwargs) && Separate(o, kwargs)
    ensures InitKwargs(o, kwargs).Failure?
        <==> exists i :: 0 <= i < |kwargs| && Mismatch(o, kwargs[i])
    decreases |kwargs|
  {
    if kwargs != [] {
      var (k, v) := kwargs[0];
      var rest := kwargs[1..];
      assert NamesUnique(rest);
      var cur := GetAttr(o, k);
      var next := if cur.Some? && IsInstance(v, cur.value) then SetAttr(o, k, v) else o;
      assert Separate(next, rest);
      InitKwargsFails(next, rest);
      forall j | 0 <= j < |rest|
        ensures Mismatch(next, rest[j]) == Mismatch(o, rest[j])
      {
        assert rest[j] == kwargs[j + 1];
        if cur.Some? && IsInstance(v, cur.value) {
          GetAttrAfterSet(o, k, v, rest[j].0);
        }
      }
      if exists i :: 0 <= i < |kwargs| && Mismatch(o, kwargs[i]) {
        var i :| 0 <= i < |kwargs| && Mismatch(o, kwargs[i]);
        if i > 0 {
          assert rest[i - 1] == kwargs[i];
        }
      }
      if exists j :: 0 <= j < |rest| && Mismatch(next, rest[j]) {
        var j :| 0 <= j < |rest| && Mismatch(next, rest[j]);
        assert kwargs[j + 1] == rest[j];
      }
    }
  }

  /** On success the object has the same attributes as before, and each
      name reads the value given for it or, when none was given, what it
      read before. */
  lemma {:induction false} InitKwargsSets(o: PyObject, kwargs: seq<(string, PyValue)>)
    requires NamesUnique(kwargs) && Separate(o, kwargs)
    requires InitKwargs(o, kwargs).Success?
    ensures InitKwargs(o, kwargs).value.jobnameProperty == o.jobnameProperty
    ensures InitKwargs(o, kwargs).value.attrs.Keys == o.attrs.Keys
    ensures forall k :: GetAttr(o, k).Some? && !(o.jobnameProperty && k == "_slurm_jobname") ==>
      GetAttr(InitKwargs(o, kwargs).value, k) == (if Given(kwargs, k).Some? then Given(kwargs, k) else GetAttr(o, k))
    decreases |kwargs|
  {
    if kwargs != [] {
      var (k, v) := kwargs[0];
      var rest := kwargs[1..];
      assert NamesUnique(rest);
      var next := if GetAttr(o, k).Some? then SetAttr(o, k, v) else o;
      assert InitKwargs(o, kwargs) == InitKwargs(next, rest);
      InitKwargsSets(next, rest);
      GivenAbsent(rest, k);
      if GetAttr(o, k).Some? {
        GetAttrSet(o, k, v);
      }
      forall k2 | k2 != k && !(o.jobnameProperty && k2 == "_slurm_jobname")
        ensures GetAttr(next, k2) == GetAttr(o, k2)
      {
        if GetAttr(o, k).Some? {
          GetAttrAfterSet(o, k, v, k2);
        }
      }
    }
  }

  /** A job name given to the property ends up in `_slurm_jobname`. */
  lemma {:induction false} InitKwargsJobname(o: PyObject, kwargs: seq<(string, PyValue)>)
    requires NamesUnique(kwargs) && Separate(o, kwargs) && o.jobnameProperty
    requires InitKwargs(o, kwargs).Success?
    ensures "_slurm_jobname" in InitKwargs(o, kwargs).value.attrs
    ensures InitKwargs(o, kwargs).value.attrs["_slurm_jobname"]
         == if Given(kwargs, "slurm_jobname").Some? then Given(kwargs, "slurm_jobname").value
            else o.attrs["_slurm_jobname"]
    decreases |kwargs|
  {
    if kwargs != [] {
      var (k, v) := kwargs[0];
      var rest := kwargs[1..];
      assert NamesUnique(rest);
      var next := if GetAttr(o, k).Some? then SetAttr(o, k, v) else o;
      assert InitKwargs(o, kwargs) == InitKwargs(next, rest);
      InitKwargsJobname(next, rest);
      if k == "slurm_jobname" {
        GivenAbsent(rest, k);
      }
    }
  }

  lemma {:induction false} GivenAbsent(kwargs: seq<(string, PyValue)>, k: string)
    requires forall i :: 0 <= i < |kwargs| ==> kwargs[i].0 != k
    ensures Given(kwargs, k) == None
    decreases |kwargs|
  {
    if kwargs != [] {
      GivenAbsent(kwargs[1..], k);
    }
  }

  function TextValue(v: PyValue): Option<string> {
    if v.Text? then Some(v.s) else None
  }

  /** The job name an object holds in `_slurm_jobname`: `None` unless it is
      a string. */
  function JobnameField(o: PyObject): Option<string> {
    if "_slurm_jobname" in o.attrs then TextValue(o.attrs["_slurm_jobname"]) else None
  }

  /** Unless `_slurm_jobname` itself is passed, a SLURM wrapper's keyword
      loop leaves the job name given as `slurm_jobname`, or none. */
  lemma SlurmJobnameFromKwargs(classAttrs: Attrs, kwargs: seq<(string, PyValue)>)
    requires NamesUnique(kwargs) && forall i :: 0 <= i < |kwargs| ==> kwargs[i].0 != "_slurm_jobname"
    requires InitKwargs(SlurmSeed(classAttrs), kwargs).Success?
    ensures JobnameField(InitKwargs(SlurmSeed(classAttrs), kwargs).value)
         == match Given(kwargs, "slurm_jobname") case Some(v) => TextValue(v) case None => None
  {
    var o := SlurmSeed(classAttrs);
    SlurmSeedJobname(classAttrs);
    InitKwargsJobname(o, kwargs);
  }

  lemma SlurmSeedJobname(classAttrs: Attrs)
    ensures SlurmSeed(classAttrs).jobnameProperty
    ensures "_slurm_jobname" in SlurmSeed(classAttrs).attrs
    ensures SlurmSeed(classAttrs).attrs["_slurm_jobname"] == NoneValue
  {
    assert "_slurm_jobname" != "_id" && "_slurm_jobname" != "_call_kwargs";
  }

  /** `slurm_jobname` accepts exactly the strings, because the property
      reads a string while the loop runs. */
  lemma SlurmJobnameType(classAttrs: Attrs, v: PyValue)
    ensures Mismatch(SlurmSeed(classAttrs), ("slurm_jobname", v)) <==> TypeName(v) != "str"
  {
  }

  /** Alone, `_slurm_jobname` only takes `None`; after a name was given to
      the property it holds a string and takes another one. The private
      fields the initializers set first are checked the same way. */
  lemma PrivateFieldsChecked(classAttrs: Attrs)
    ensures InitKwargs(SlurmSeed(classAttrs), [("_slurm_jobname", Text("b"))])
         == Failure(AttributeTypeMismatch("_slurm_jobname", "str", "NoneType"))
    ensures InitKwargs(SlurmSeed(classAttrs), [("_id", Text("x"))])
         == Failure(AttributeTypeMismatch("_id", "str", "NoneType"))
    ensures InitKwargs(PySeed(classAttrs), [("_id", Text("x"))])
         == Failure(AttributeTypeMismatch("_id", "str", "NoneType"))
    ensures var r := InitKwargs(SlurmSeed(classAttrs), [("slurm_jobname", Text("a")), ("_slurm_jobname", Text("b"))]);
      r.Success? && JobnameField(r.value) == Some("b")
  {
  }

  // ---------------------------------------------------------------------
  // Calls

  /** What the wrapper was called with. */
  datatype CallArg = TrajectoryArg(traj: Trajectory) | OtherArg(typeName: string)

  /** A wrapped Python callable; `lookup` is what `inspect.getsource` does with it. */
  datatype PyCallable = PyCallable(name: string, lookup: SourceLookup)

  /** `inspect.getsource`: the source, an `OSError` (source not retrievable),
      or a `TypeError` (not a Python-level function). */
  datatype SourceLookup = Found(src: string) | NotRetrievable | Unsupported

  /** What a call turns into. */
  datatype Dispatch =
    | ApplyWrapped(traj: Trajectory, id: string)
    | DirectCall(func: PyCallable, arg: CallArg, kwargs: seq<Arg>)
    | Raise(error: WrapperError)

  function ArgTypeName(value: CallArg): string {
    match value
    case TrajectoryArg(_) => "Trajectory"
    case OtherArg(t) => t
  }

  /** The base `__call__`: a trajectory goes to `_apply_wrapped_func` with
      the identity, but only when there is one; everything else is a
      `TypeError`. */
  function BaseCall(value: CallArg, id: Option<string>): (d: Dispatch)
    ensures d.ApplyWrapped? <==> value.TrajectoryArg? && id.Some?
    ensures d.ApplyWrapped? ==> d.traj == value.traj && id == Some(d.id)
    ensures !d.ApplyWrapped? ==> d == Raise(NotATrajectory(ArgTypeName(value)))
  {
    if value.TrajectoryArg? && id.Some? then ApplyWrapped(value.traj, id.value)
    else Raise(NotATrajectory(ArgTypeName(value)))
  }

  /** The Python wrapper's `__call__` agrees with the base one where that
      one delegates, and calls the function directly where it would raise. */
  function PyCall(value: CallArg, id: Option<string>, func: PyCallable, kwargs: seq<Arg>): (d: Dispatch)
    ensures !d.Raise?
    ensures BaseCall(value, id).ApplyWrapped? ==> d == BaseCall(value, id)
    ensures BaseCall(value, id).Raise? ==> d == DirectCall(func, value, kwargs)
  {
    if value.TrajectoryArg? && id.Some? then ApplyWrapped(value.traj, id.value)
    else DirectCall(func, value, kwargs)
  }

  /** An `asyncio.Semaphore` as a counter. */
  class Semaphore {
    var value: nat

    constructor (n: nat)
      ensures value == n
    {
      value := n;
    }

    method Acquire()
      requires value > 0
      modifies this
      ensures value == old(value) - 1
    {
      value := value - 1;
    }

    method Release()
      modifies this
      ensures value == old(value) + 1
    {
      value := value + 1;
    }
  }

  /** The value of `call_kwargs` assigned by a caller: a dict or something else. */
  datatype KwargsInput = DictInput(entries: KwDict) | NonDictInput(typeName: string)

  /** The values a wrapped function computes for a trajectory. */
  datatype ArrayValue = ArrayValue(rows: seq<seq<int>>)

  /** `str(self._func_src)`, with `str(None) == "None"`. */
  function SourceText(src: Option<string>): string {
    match src
    case None => "None"
    case Some(s) => s
  }

  // ---------------------------------------------------------------------
  // PyTrajectoryFunctionWrapper

  class PyWrapper {
    var id: Option<string>
    var callKwargs: KwDict
    var func: Option<PyCallable>
    var funcSrc: Option<string>
    const digest: string -> nat

    /** Whenever there is an identity, it is the one of the current keyword
        arguments and source; having a source means having an identity. */
    ghost predicate Valid()
      reads this
    {
      && (id.Some? ==> id == Some(IdString(callKwargs, digest(SourceText(funcSrc)), digest)))
      && (funcSrc.Some? ==> id.Some?)
    }

    /** The fields as the initializers leave them before the setters run. */
    constructor (digest: string -> nat)
      ensures Valid()
      ensures id == None && callKwargs == [] && func == None && funcSrc == None
      ensures this.digest == digest
    {
      id := None;
      callKwargs := [];
      func := None;
      funcSrc := None;
      this.digest := digest;
    }

    /** `PyTrajectoryFunctionWrapper(function, call_kwargs, **kwargs)`. */
    static method Create(f: PyCallable, kwargs: KwargsInput, initKwargs: seq<(string, PyValue)>,
                         classAttrs: Attrs, digest: string -> nat)
      returns (r: Result<PyWrapper, WrapperError>)
      ensures r.Failure? <==>
        || InitKwargs(PySeed(classAttrs), initKwargs).Failure?
        || f.lookup.Unsupported?
        || kwargs.NonDictInput?
      ensures r.Failure? ==>
        var loop := InitKwargs(PySeed(classAttrs), initKwargs);
        if loop.Failure? then r == Failure(loop.error)
        else if f.lookup.Unsupported? then r == Failure(SourceTypeError)
        else r == Failure(NotADict)
      ensures r.Success? ==> fresh(r.value) && r.value.Valid() && r.value.digest == digest
      ensures r.Success? ==> r.value.func == Some(f) && r.value.callKwargs == kwargs.entries
      ensures r.Success? ==> r.value.funcSrc == (if f.lookup.Found? then Some(f.lookup.src) else None)
      ensures r.Success? ==>
        r.value.id == Some(IdString(kwargs.entries, digest(SourceText(r.value.funcSrc)), digest))
      ensures r.Success? && f.lookup.NotRetrievable? ==>
        r.value.funcSrc == None && r.value.id == Some(IdString(kwargs.entries, digest("None"), digest))
    {
      var w := new PyWrapper(digest);
      var attrs := ApplyInitKwargs(PySeed(classAttrs), initKwargs);
      if attrs.Failure? {
        return Failure(attrs.error);
      }
      var err := w.SetFunction(f);
      if err.Some? {
        return Failure(err.value);
      }
      err := w.SetCallKwargs(kwargs);
      if err.Some? {
        return Failure(err.value);
      }
      return Success(w);
    }

    /** The `function` setter: the callable is always stored; the source and
        identity follow what `getsource` gives, and a `TypeError` from it
        leaves them as they were. */
    method SetFunction(f: PyCallable) returns (err: Option<WrapperError>)
      requires Valid()
      modifies this
      ensures Valid() && func == Some(f) && callKwargs == old(callKwargs)
      ensures err == (if f.lookup.Unsupported? then Some(SourceTypeError) else None)
      ensures f.lookup.Found? ==>
        funcSrc == Some(f.lookup.src) && id == Some(IdString(callKwargs, digest(f.lookup.src), digest))
      ensures f.lookup.NotRetrievable? ==> funcSrc == None && id == None
      ensures f.lookup.Unsupported? ==> funcSrc == old(funcSrc) && id == old(id)
    {
      match f.lookup {
        case Found(src) =>
          funcSrc := Some(src);
          var s := GetIdStr(callKwargs, digest(src), digest);
          id := Some(s);
          err := None;
        case NotRetrievable =>
          funcSrc := None;
          id := None;
          err := None;
        case Unsupported =>
          err := Some(SourceTypeError);
      }
      func := Some(f);
    }

    /** The `call_kwargs` setter: a dict is stored and the identity
        recomputed (also when there is no source, from `str(None)`);
        anything else is a `TypeError` that changes nothing. */
    method SetCallKwargs(v: KwargsInput) returns (err: Option<WrapperError>)
      requires Valid()
      modifies this`callKwargs, this`id
      ensures Valid()
      ensures v.NonDictInput? ==> err == Some(NotADict) && callKwargs == old(callKwargs) && id == old(id)
      ensures v.DictInput? ==>
        err == None && callKwargs == v.entries && id == Some(IdString(v.entries, digest(SourceText(funcSrc)), digest))
    {
      match v {
        case NonDictInput(_) =>
          err := Some(NotADict);
        case DictInput(entries) =>
          callKwargs := entries;
          var s := GetIdStr(callKwargs, digest(SourceText(funcSrc)), digest);
          id := Some(s);
          err := None;
      }
    }

    /** The `call_kwargs` getter hands out a copy: a value, so nothing done
        with it reaches the wrapper. */
    method GetCallKwargs() returns (c: KwDict)
      ensures c == callKwargs
    {
      c := callKwargs;
    }

    /** `__call__`. */
    method Call(value: CallArg) returns (d: Dispatch)
      requires func.Some?
      ensures d == PyCall(value, id, func.value, callKwargs)
    {
      if value.TrajectoryArg? && id.Some? {
        d := ApplyWrapped(value.traj, id.value);
      } else {
        d := DirectCall(func.value, value, callKwargs);
      }
    }

    /** `get_values_for_trajectory`: under the `MAX_PROCESS` permit, the
        function is run on the trajectory with the keyword arguments; the
        thread pool is `run`. The permit count is back where it was,
        whatever the function does. */
    method GetValuesForTrajectory(traj: Trajectory, maxProcess: Semaphore,
                                  run: (PyCallable, seq<Arg>, Trajectory) -> Result<ArrayValue, string>)
      returns (r: Result<ArrayValue, string>)
      requires func.Some? && maxProcess.value > 0
      modifies maxProcess
      ensures maxProcess.value == old(maxProcess.value)
      ensures r == run(func.value, callKwargs, traj)
    {
      maxProcess.Acquire();
      var kw := GetCallKwargs();
      r := run(func.value, kw, traj);
      maxProcess.Release();
    }
  }

  /** A wrapper whose function source cannot be retrieved still sends a
      trajectory to the cache once `__init__` has finished: the `function`
      setter clears the identity, but the `call_kwargs` setter runs after it
      and hashes `str(None)`. */
  method UnretrievableSourceStillHasId(f: PyCallable, kwargs: KwDict, initKwargs: seq<(string, PyValue)>,
                                       classAttrs: Attrs, digest: string -> nat, traj: Trajectory)
    returns (d: Option<Dispatch>)
    requires f.lookup.NotRetrievable?
    ensures d.Some? <==> InitKwargs(PySeed(classAttrs), initKwargs).Success?
    ensures d.Some? ==> d.value == ApplyWrapped(traj, IdString(kwargs, digest("None"), digest))
  {
    var r := PyWrapper.Create(f, DictInput(kwargs), initKwargs, classAttrs, digest);
    if r.Failure? {
      return None;
    }
    var call := r.value.Call(TrajectoryArg(traj));
    d := Some(call);
  }

  // ---------------------------------------------------------------------
  // The world a SLURM wrapper acts on

  /** The files of the working directories, path to content;
      `canWrite(p)` says whether `open(p, 'w')` succeeds. */
  class FileSystem {
    var files: map<string, string>
    const canWrite: string -> bool

    constructor (files: map<string, string>, canWrite: string -> bool)
      ensures this.files == files && this.canWrite == canWrite
    {
      this.files := files;
      this.canWrite := canWrite;
    }

    /** Writing a whole file; `false` is the `OSError` from `open`, which
        leaves the files as they were. */
    method Write(path: string, content: string) returns (ok: bool)
      modifies this
      ensures ok == canWrite(path)
      ensures files == if ok then old(files)[path := content] else old(files)
    {
      ok := canWrite(path);
      if ok {
        files := files[path := content];
      }
    }

    /** What the batch job deletes and writes. */
    method Absorb(removed: set<string>, written: map<string, string>)
      modifies this
      ensures files == (old(files) - removed) + written
    {
      files := (files - removed) + written;
    }

    /** `os.remove`: `false` is a `FileNotFoundError`. */
    method Remove(path: string) returns (ok: bool)
      modifies this
      ensures ok == (path in old(files))
      ensures files == old(files) - {path}
    {
      ok := path in files;
      files := files - {path};
    }
  }

  datatype QueueEvent =
    | Submitted(jobname: string, script: string, workdir: string, jobId: string)
    | Killed(jobId: string)

  /** The batch system as the log of what was asked of it. */
  class BatchQueue {
    var events: seq<QueueEvent>

    constructor ()
      ensures events == []
    {
      events := [];
    }

    method Submit(jobname: string, script: string, workdir: string, jobId: string)
      modifies this
      ensures events == old(events) + [Submitted(jobname, script, workdir, jobId)]
    {
      events := events + [Submitted(jobname, script, workdir, jobId)];
    }

    method Kill(jobId: string)
      modifies this
      ensures events == old(events) + [Killed(jobId)]
    {
      events := events + [Killed(jobId)];
    }
  }

  /** How the batch job went once its script is written. A cancellation or
      another exception can come during the submission, possibly after the
      batch system has taken the job (`accepted` is its id then), or
      while waiting for the job. A finished job may have deleted files
      (`removed`) and written others (`written`, which wins). */
  datatype JobOutcome =
    | CancelledDuringSubmission(accepted: Option<string>)
    | CancelledWhileWaiting(jobId: string)
    | Raised(accepted: Option<string>, message: string)
    | Finished(jobId: string, returnCode: int, stdout: string, stderr: string,
               removed: set<string>, written: map<string, string>)

  /** The foreign calls a SLURM wrapper makes. `exeDigest` is the digest of
      an executable's bytes (`None` when it cannot be read), `findExecutable`
      is `ensure_executable_available` (`None` when it raises), `readText`
      reads a template file (`None` when it cannot be opened) and `npLoad` is
      `np.load` on a file's content. */
  datatype Env = Env(digest: string -> nat, exeDigest: string -> Option<nat>,
                     findExecutable: string -> Option<string>, readText: string -> Option<string>,
                     npLoad: string -> Option<ArrayValue>)

  type Loader = string -> Option<ArrayValue>

  /** The template argument is the template itself when it starts with a
      shebang and otherwise the path of a file holding it. */
  function TemplateText(sbatchScript: string, readText: string -> Option<string>): (r: Option<string>)
    ensures |sbatchScript| >= 2 && sbatchScript[..2] == "#!" ==> r == Some(sbatchScript)
    ensures !(|sbatchScript| >= 2 && sbatchScript[..2] == "#!") ==> r == readText(sbatchScript)
  {
    if |sbatchScript| >= 2 && sbatchScript[..2] == "#!" then Some(sbatchScript) else readText(sbatchScript)
  }

  /** Everything a job needs that is computed before anything is written. */
  datatype Job = Job(traj: Trajectory, workdir: string, resultFile: string, cmd: string, script: string, scriptFile: string)

  function PrepareJob(executable: string, sbatchScript: string, kwargs: seq<Arg>, id: Option<string>,
                      jobname: string, traj: Trajectory): Result<Job, WrapperError>
  {
    if traj.trajectoryFiles == [] then Failure(NoTrajectoryFiles)
    else
      var first := traj.trajectoryFiles[0];
      var result := ResultFile(first, traj.trajectoryHash, id);
      var cmd := CmdLine(executable, traj, result, kwargs);
      match FormatTemplate(sbatchScript, cmd)
      case None => Failure(TemplateFormat)
      case Some(script) => Success(Job(traj, Split(first).0, result, cmd, script, ScriptFile(first, jobname)))
  }

  /** The end of a call: its result, the files, and what was asked of the
      batch system. */
  datatype Finish = Finish(result: Result<ArrayValue, WrapperError>, files: map<string, string>, events: seq<QueueEvent>)

  /** The submission the batch system logs for a job it has taken. */
  function Accepted(job: Job, jobname: string, accepted: Option<string>): seq<QueueEvent> {
    if accepted.Some? then [Submitted(jobname, job.scriptFile, job.workdir, accepted.value)] else []
  }

  /** What happens once the script is written: submission, waiting and
      collecting the results. */
  function Lifecycle(job: Job, executable: string, jobname: string, loader: Option<Loader>,
                     npLoad: string -> Option<ArrayValue>, files: map<string, string>, outcome: JobOutcome): Finish
  {
    var withScript := files[job.scriptFile := job.script];
    match outcome
    case CancelledDuringSubmission(a) => Finish(Failure(SlurmProcUnbound), withScript, Accepted(job, jobname, a))
    case Raised(a, message) => Finish(Failure(BatchError(message)), withScript, Accepted(job, jobname, a))
    case CancelledWhileWaiting(j) =>
      Finish(Failure(Cancelled), withScript, [Submitted(jobname, job.scriptFile, job.workdir, j), Killed(j)])
    case Finished(j, code, out, err, removed, written) =>
      var submitted := [Submitted(jobname, job.scriptFile, job.workdir, j)];
      var after := (withScript - removed) + written;
      if code != 0 then Finish(Failure(NonZeroExit(executable, job.traj, j, code, err, out)), after, submitted)
      else if job.scriptFile !in after then Finish(Failure(ScriptMissing(job.scriptFile)), after, submitted)
      else
        var cleaned := after - {job.scriptFile};
        match loader
        case None =>
          var npy := job.resultFile + ".npy";
          if npy !in cleaned then Finish(Failure(ResultMissing(npy)), cleaned, submitted)
          else if npLoad(cleaned[npy]).None? then Finish(Failure(ResultUnreadable(npy)), cleaned, submitted)
          else Finish(Success(npLoad(cleaned[npy]).value), cleaned - {npy}, submitted)
        case Some(load) =>
          match load(job.resultFile)
          case None => Finish(Failure(LoaderFailed(job.resultFile)), cleaned, submitted)
          case Some(v) =>
            if job.resultFile in cleaned then Finish(Success(v), cleaned - {job.resultFile}, submitted)
            else Finish(Failure(ResultMissing(job.resultFile)), cleaned, submitted)
  }

  /** Writing the script, then the rest of the job. When the script cannot
      be written the error propagates before anything is submitted. */
  function Execute(job: Job, executable: string, jobname: string, loader: Option<Loader>,
                   npLoad: string -> Option<ArrayValue>, canWrite: string -> bool,
                   files: map<string, string>, outcome: JobOutcome): Finish
  {
    if !canWrite(job.scriptFile) then Finish(Failure(ScriptUnwritable(job.scriptFile)), files, [])
    else Lifecycle(job, executable, jobname, loader, npLoad, files, outcome)
  }

  /** The whole of `get_values_for_trajectory`. */
  function Run(executable: string, sbatchScript: string, kwargs: seq<Arg>, id: Option<string>, jobname: string,
               loader: Option<Loader>, npLoad: string -> Option<ArrayValue>, canWrite: string -> bool,
               traj: Trajectory, files: map<string, string>, outcome: JobOutcome): Finish
  {
    match PrepareJob(executable, sbatchScript, kwargs, id, jobname, traj)
    case Failure(e) => Finish(Failure(e), files, [])
    case Success(job) => Execute(job, executable, jobname, loader, npLoad, canWrite, files, outcome)
  }

  function OptSet(s: Option<Semaphore>): set<Semaphore> {
    if s.Some? then {s.value} else {}
  }

  // ---------------------------------------------------------------------
  // SlurmTrajectoryFunctionWrapper

  class SlurmWrapper {
    var id: Option<string>
    var callKwargs: KwDict
    var executable: string
    var slurmJobname: Option<string>
    var sbatchScript: string
    var loadResultsFunc: Option<Loader>
    const env: Env

    /** The identity is the one of the current keyword arguments and
        executable. */
    ghost predicate Consistent()
      reads this
    {
      && env.exeDigest(executable).Some?
      && id == Some(IdString(callKwargs, env.exeDigest(executable).value, env.digest))
    }

    /** The fields as the initializers leave them before the setters run. */
    constructor (env: Env)
      ensures id == None && callKwargs == [] && executable == "" && slurmJobname == None
      ensures sbatchScript == "" && loadResultsFunc == None && this.env == env
    {
      id := None;
      callKwargs := [];
      executable := "";
      slurmJobname := None;
      sbatchScript := "";
      loadResultsFunc := None;
      this.env := env;
    }

    /** `SlurmTrajectoryFunctionWrapper(executable, sbatch_script,
        call_kwargs, load_results_func, **kwargs)`. `_slurm_jobname` is set
        before the base initializer, so that its keyword loop can set the
        job name; then come the template, the executable and the keyword
        arguments, each of which can raise, in that order. */
    static method Create(exe: string, sbatchScript: string, kwargs: KwargsInput, loader: Option<Loader>,
                         initKwargs: seq<(string, PyValue)>, classAttrs: Attrs, env: Env)
      returns (r: Result<SlurmWrapper, WrapperError>)
      ensures r.Failure? <==>
        || InitKwargs(SlurmSeed(classAttrs), initKwargs).Failure?
        || TemplateText(sbatchScript, env.readText).None?
        || env.findExecutable(exe).None?
        || env.exeDigest(env.findExecutable(exe).value).None?
        || kwargs.NonDictInput?
      ensures InitKwargs(SlurmSeed(classAttrs), initKwargs).Failure? ==>
        r == Failure(InitKwargs(SlurmSeed(classAttrs), initKwargs).error)
      ensures InitKwargs(SlurmSeed(classAttrs), initKwargs).Success? ==>
        if TemplateText(sbatchScript, env.readText).None? then r == Failure(TemplateUnreadable(sbatchScript))
        else if env.findExecutable(exe).None? then r == Failure(ExecutableUnavailable(exe))
        else if env.exeDigest(env.findExecutable(exe).value).None? then
          r == Failure(ExecutableUnreadable(env.findExecutable(exe).value))
        else if kwargs.NonDictInput? then r == Failure(NotADict)
        else r.Success?
      ensures r.Success? ==> fresh(r.value) && r.value.Consistent() && r.value.env == env
      ensures r.Success? ==>
        && r.value.slurmJobname == JobnameField(InitKwargs(SlurmSeed(classAttrs), initKwargs).value)
        && TemplateText(sbatchScript, env.readText) == Some(r.value.sbatchScript)
        && env.findExecutable(exe) == Some(r.value.executable)
        && kwargs == DictInput(r.value.callKwargs)
        && r.value.loadResultsFunc == loader
    {
      var w := new SlurmWrapper(env);
      var attrs := ApplyInitKwargs(SlurmSeed(classAttrs), initKwargs);
      if attrs.Failure? {
        return Failure(attrs.error);
      }
      w.slurmJobname := JobnameField(attrs.value);
      var text := TemplateText(sbatchScript, env.readText);
      if text.None? {
        return Failure(TemplateUnreadable(sbatchScript));
      }
      w.sbatchScript := text.value;
      var err := w.SetExecutable(exe);
      if err.Some? {
        return Failure(err.value);
      }
      err := w.SetCallKwargs(kwargs);
      if err.Some? {
        return Failure(err.value);
      }
      w.loadResultsFunc := loader;
      return Success(w);
    }

    /** The `executable` setter. The new executable is stored before the
        identity is computed, so an unreadable executable leaves the old
        identity next to the new executable. */
    method SetExecutable(name: string) returns (err: Option<WrapperError>)
      modifies this`executable, this`id
      ensures env.findExecutable(name).None? ==>
        err == Some(ExecutableUnavailable(name)) && executable == old(executable) && id == old(id)
      ensures env.findExecutable(name).Some? ==> executable == env.findExecutable(name).value
      ensures env.findExecutable(name).Some? && env.exeDigest(executable).None? ==>
        err == Some(ExecutableUnreadable(executable)) && id == old(id)
      ensures env.findExecutable(name).Some? && env.exeDigest(executable).Some? ==>
        err == None && Consistent()
    {
      var found := env.findExecutable(name);
      if found.None? {
        return Some(ExecutableUnavailable(name));
      }
      executable := found.value;
      err := RecomputeId();
    }

    /** `self._id = self._get_id_str()`. */
    method RecomputeId() returns (err: Option<WrapperError>)
      modifies this`id
      ensures env.exeDigest(executable).None? ==> err == Some(ExecutableUnreadable(executable)) && id == old(id)
      ensures env.exeDigest(executable).Some? ==> err == None && Consistent()
    {
      var content := env.exeDigest(executable);
      if content.None? {
        return Some(ExecutableUnreadable(executable));
      }
      var s := GetIdStr(callKwargs, content.value, env.digest);
      id := Some(s);
      err := None;
    }

    /** The `call_kwargs` setter. */
    method SetCallKwargs(v: KwargsInput) returns (err: Option<WrapperError>)
      modifies this`callKwargs, this`id
      ensures v.NonDictInput? ==> err == Some(NotADict) && callKwargs == old(callKwargs) && id == old(id)
      ensures v.DictInput? ==> callKwargs == v.entries
      ensures v.DictInput? && env.exeDigest(executable).None? ==>
        err == Some(ExecutableUnreadable(executable)) && id == old(id)
      ensures v.DictInput? && env.exeDigest(executable).Some? ==> err == None && Consistent()
    {
      match v {
        case NonDictInput(_) =>
          err := Some(NotADict);
        case DictInput(entries) =>
          callKwargs := entries;
          err := RecomputeId();
      }
    }

    method GetCallKwargs() returns (c: KwDict)
      ensures c == callKwargs
    {
      c := callKwargs;
    }

    /** The `slurm_jobname` property. */
    method SlurmJobname() returns (name: string)
      ensures slurmJobname.Some? ==> name == slurmJobname.value
      ensures slurmJobname.None? ==> name == DefaultJobname(id)
    {
      if slurmJobname.None? {
        name := "CVfunc_id_" + IdText(id);
      } else {
        name := slurmJobname.value;
      }
    }

    method SetSlurmJobname(v: Option<string>)
      modifies this`slurmJobname
      ensures slurmJobname == v
    {
      slurmJobname := v;
    }

    /** `__call__`, inherited from the base class. */
    method Call(value: CallArg) returns (d: Dispatch)
      ensures d == BaseCall(value, id)
    {
      if value.TrajectoryArg? && id.Some? {
        d := ApplyWrapped(value.traj, id.value);
      } else {
        d := Raise(NotATrajectory(ArgTypeName(value)));
      }
    }

    function Jobname(): string
      reads this
    {
      if slurmJobname.Some? then slurmJobname.value else DefaultJobname(id)
    }

    /** `get_values_for_trajectory`: build the result path, the command and
        the script, write the script under `MAX_FILES_OPEN`, then submit and
        wait under `SLURM_MAX_JOB` (when configured) and collect the
        results. Both permit counts end where they began. */
    method GetValuesForTrajectory(traj: Trajectory, fs: FileSystem, queue: BatchQueue,
                                  maxFilesOpen: Semaphore, slurmMaxJob: Option<Semaphore>, outcome: JobOutcome)
      returns (r: Result<ArrayValue, WrapperError>)
      requires maxFilesOpen.value > 0
      requires slurmMaxJob.Some? ==> slurmMaxJob.value.value > 0 && slurmMaxJob.value != maxFilesOpen
      modifies fs, queue, maxFilesOpen, OptSet(slurmMaxJob)
      ensures maxFilesOpen.value == old(maxFilesOpen.value)
      ensures slurmMaxJob.Some? ==> slurmMaxJob.value.value == old(slurmMaxJob.value.value)
      ensures old(queue.events) <= queue.events
      ensures Run(executable, sbatchScript, callKwargs, id, Jobname(), loadResultsFunc, env.npLoad, fs.canWrite,
                  traj, old(fs.files), outcome)
           == Finish(r, fs.files, queue.events[|old(queue.events)|..])
    {
      if |traj.trajectoryFiles| == 0 {
        return Failure(NoTrajectoryFiles);
      }
      var first := traj.trajectoryFiles[0];
      var (dir, name) := Split(first);
      var resultFile := Join(dir, ResultName(name, traj.trajectoryHash, id));
      var cmd := BuildCmdStr(executable, traj, resultFile, callKwargs);
      var formatted := FormatTemplate(sbatchScript, cmd);
      if formatted.None? {
        return Failure(TemplateFormat);
      }
      var script := formatted.value;
      var jobname := SlurmJobname();
      var scriptFile := Join(dir, name + "_" + jobname + ".slurm");
      var job := Job(traj, dir, resultFile, cmd, script, scriptFile);
      assert PrepareJob(executable, sbatchScript, callKwargs, id, Jobname(), traj) == Success(job);
      r := RunJob(job, jobname, fs, queue, maxFilesOpen, slurmMaxJob, outcome);
    }

    /** Writing the script under `MAX_FILES_OPEN` and running the job under
        `SLURM_MAX_JOB`. A script that cannot be written releases
        `MAX_FILES_OPEN` and raises before `SLURM_MAX_JOB` is taken. */
    method RunJob(job: Job, jobname: string, fs: FileSystem, queue: BatchQueue,
                  maxFilesOpen: Semaphore, slurmMaxJob: Option<Semaphore>, outcome: JobOutcome)
      returns (r: Result<ArrayValue, WrapperError>)
      requires maxFilesOpen.value > 0
      requires slurmMaxJob.Some? ==> slurmMaxJob.value.value > 0 && slurmMaxJob.value != maxFilesOpen
      modifies fs, queue, maxFilesOpen, OptSet(slurmMaxJob)
      ensures maxFilesOpen.value == old(maxFilesOpen.value)
      ensures slurmMaxJob.Some? ==> slurmMaxJob.value.value == old(slurmMaxJob.value.value)
      ensures old(queue.events) <= queue.events
      ensures Execute(job, executable, jobname, loadResultsFunc, env.npLoad, fs.canWrite, old(fs.files), outcome)
           == Finish(r, fs.files, queue.events[|old(queue.events)|..])
    {
      maxFilesOpen.Acquire();
      var written := fs.Write(job.scriptFile, job.script);
      maxFilesOpen.Release();
      if !written {
        return Failure(ScriptUnwritable(job.scriptFile));
      }
      if slurmMaxJob.Some? {
        slurmMaxJob.value.Acquire();
      }
      r := AwaitJob(job, jobname, fs, queue, outcome, old(fs.files));
      if slurmMaxJob.Some? {
        slurmMaxJob.value.Release();
      }
    }

    /** The `try`/`except`/`else` around submission and waiting. */
    method AwaitJob(job: Job, jobname: string, fs: FileSystem, queue: BatchQueue, outcome: JobOutcome,
                    ghost files0: map<string, string>)
      returns (r: Result<ArrayValue, WrapperError>)
      requires fs.files == files0[job.scriptFile := job.script]
      modifies fs, queue
      ensures old(queue.events) <= queue.events
      ensures Lifecycle(job, executable, jobname, loadResultsFunc, env.npLoad, files0, outcome)
           == Finish(r, fs.files, queue.events[|old(queue.events)|..])
    {
      ghost var events0 := queue.events;
      match outcome {
        case CancelledDuringSubmission(a) =>
          if a.Some? {
            queue.Submit(jobname, job.scriptFile, job.workdir, a.value);
          }
          r := Failure(SlurmProcUnbound);
        case Raised(a, message) =>
          if a.Some? {
            queue.Submit(jobname, job.scriptFile, job.workdir, a.value);
          }
          r := Failure(BatchError(message));
        case CancelledWhileWaiting(j) =>
          queue.Submit(jobname, job.scriptFile, job.workdir, j);
          queue.Kill(j);
          r := Failure(Cancelled);
        case Finished(j, code, out, err, removed, written) =>
          queue.Submit(jobname, job.scriptFile, job.workdir, j);
          fs.Absorb(removed, written);
          if code != 0 {
            r := Failure(NonZeroExit(executable, job.traj, j, code, err, out));
          } else {
            var found := fs.Remove(job.scriptFile);
            if !found {
              r := Failure(ScriptMissing(job.scriptFile));
            } else {
              r := Collect(fs, job.resultFile);
            }
          }
      }
      assert queue.events[|events0|..]
          == Lifecycle(job, executable, jobname, loadResultsFunc, env.npLoad, files0, outcome).events;
    }

    /** Loading and removing the result file after a successful job. */
    method Collect(fs: FileSystem, resultFile: string) returns (r: Result<ArrayValue, WrapperError>)
      modifies fs
      ensures loadResultsFunc.None? ==>
        var npy := resultFile + ".npy";
        if npy !in old(fs.files) then r == Failure(ResultMissing(npy)) && fs.files == old(fs.files)
        else if env.npLoad(old(fs.files)[npy]).None? then
          r == Failure(ResultUnreadable(npy)) && fs.files == old(fs.files)
        else r == Success(env.npLoad(old(fs.files)[npy]).value) && fs.files == old(fs.files) - {npy}
      ensures loadResultsFunc.Some? ==>
        if loadResultsFunc.value(resultFile).None? then
          r == Failure(LoaderFailed(resultFile)) && fs.files == old(fs.files)
        else if resultFile !in old(fs.files) then
          r == Failure(ResultMissing(resultFile)) && fs.files == old(fs.files) - {resultFile}
        else r == Success(loadResultsFunc.value(resultFile).value) && fs.files == old(fs.files) - {resultFile}
    {
      if loadResultsFunc.None? {
        var npy := resultFile + ".npy";
        if npy !in fs.files {
          return Failure(ResultMissing(npy));
        }
        var vals := env.npLoad(fs.files[npy]);
        if vals.None? {
          return Failure(ResultUnreadable(npy));
        }
        var _ := fs.Remove(npy);
        return Success(vals.value);
      } else {
        var vals := loadResultsFunc.value(resultFile);
        if vals.None? {
          return Failure(LoaderFailed(resultFile));
        }
        var removed := fs.Remove(resultFile);
        if !removed {
          return Failure(ResultMissing(resultFile));
        }
        return Success(vals.value);
      }
    }
  }

  // ---------------------------------------------------------------------
  // Properties of the call lifecycle

  /** The files once the job has done its part and before the wrapper
      cleans up: the script written, then what a finished job deleted and
      wrote. */
  function JobFiles(job: Job, files: map<string, string>, outcome: JobOutcome): map<string, string> {
    var withScript := files[job.scriptFile := job.script];
    if outcome.Finished? then (withScript - outcome.removed) + outcome.written else withScript
  }

  /** A job that exits with a non-zero code raises an error with the
      trajectory, the code, stderr and stdout. The wrapper removes nothing,
      so the script stays unless the job itself deleted it. */
  lemma NonZeroExitKeepsScript(job: Job, executable: string, jobname: string, loader: Option<Loader>,
                               npLoad: string -> Option<ArrayValue>, files: map<string, string>,
                               j: string, code: int, out: string, err: string,
                               removed: set<string>, written: map<string, string>)
    requires code != 0
    ensures var outcome := Finished(j, code, out, err, removed, written);
      var f := Lifecycle(job, executable, jobname, loader, npLoad, files, outcome);
      && f.result == Failure(NonZeroExit(executable, job.traj, j, code, err, out))
      && f.files == JobFiles(job, files, outcome)
      && (job.scriptFile in f.files <==> job.scriptFile !in removed || job.scriptFile in written)
      && f.events == [Submitted(jobname, job.scriptFile, job.workdir, j)]
  {
  }

  /** A successful call leaves neither the script nor the result file
      behind, and came from a job that exited with code 0. */
  lemma SuccessCleansUp(job: Job, executable: string, jobname: string, loader: Option<Loader>,
                        npLoad: string -> Option<ArrayValue>, files: map<string, string>, outcome: JobOutcome)
    requires Lifecycle(job, executable, jobname, loader, npLoad, files, outcome).result.Success?
    ensures outcome.Finished? && outcome.returnCode == 0
    ensures var f := Lifecycle(job, executable, jobname, loader, npLoad, files, outcome);
      && job.scriptFile !in f.files
      && (loader.None? ==> job.resultFile + ".npy" !in f.files)
      && (loader.Some? ==> job.resultFile !in f.files)
  {
  }

  /** Files other than the script, the result and what the job wrote are
      left alone. */
  lemma LifecycleFrame(job: Job, executable: string, jobname: string, loader: Option<Loader>,
                       npLoad: string -> Option<ArrayValue>, files: map<string, string>, outcome: JobOutcome, p: string)
    requires p != job.scriptFile && p != job.resultFile && p != job.resultFile + ".npy"
    requires outcome.Finished? ==> p !in outcome.written && p !in outcome.removed
    ensures var f := Lifecycle(job, executable, jobname, loader, npLoad, files, outcome);
      (p in f.files <==> p in files) && (p in files ==> f.files[p] == files[p])
  {
  }

  /** The job is killed exactly when the call is cancelled while waiting
      for it, and the kill comes after the submission. A cancellation during
      the submission itself ends with an unbound `slurm_proc` instead, so a
      job the batch system took just before it is left running. */
  lemma KillOnCancel(job: Job, executable: string, jobname: string, loader: Option<Loader>,
                     npLoad: string -> Option<ArrayValue>, files: map<string, string>, outcome: JobOutcome)
    ensures var f := Lifecycle(job, executable, jobname, loader, npLoad, files, outcome);
      && ((exists i :: 0 <= i < |f.events| && f.events[i].Killed?) <==> outcome.CancelledWhileWaiting?)
      && (outcome.CancelledWhileWaiting? ==>
            f.result == Failure(Cancelled)
            && f.events == [Submitted(jobname, job.scriptFile, job.workdir, outcome.jobId), Killed(outcome.jobId)])
      && (outcome.CancelledDuringSubmission? ==>
            f.result == Failure(SlurmProcUnbound) && f.events == Accepted(job, jobname, outcome.accepted))
      && (outcome.CancelledDuringSubmission? && outcome.accepted.Some? ==>
            Submitted(jobname, job.scriptFile, job.workdir, outcome.accepted.value) in f.events
            && Killed(outcome.accepted.value) !in f.events)
  {
    var f := Lifecycle(job, executable, jobname, loader, npLoad, files, outcome);
    if outcome.CancelledWhileWaiting? {
      assert f.events[1].Killed?;
    }
  }

  /** Any other exception from the submission or the wait propagates
      unchanged: the script stays and nothing is killed. */
  lemma RaisedKeepsScript(job: Job, executable: string, jobname: string, loader: Option<Loader>,
                          npLoad: string -> Option<ArrayValue>, files: map<string, string>,
                          accepted: Option<string>, message: string)
    ensures var f := Lifecycle(job, executable, jobname, loader, npLoad, files, Raised(accepted, message));
      && f.result == Failure(BatchError(message))
      && f.files == files[job.scriptFile := job.script]
      && f.events == Accepted(job, jobname, accepted)
  {
  }

  /** A script that cannot be written ends the call with that error: no file
      changes and nothing reaches the batch system. Once it is written, the
      call goes on as `Lifecycle` says. */
  lemma UnwritableScriptSubmitsNothing(job: Job, executable: string, jobname: string, loader: Option<Loader>,
                                       npLoad: string -> Option<ArrayValue>, canWrite: string -> bool,
                                       files: map<string, string>, outcome: JobOutcome)
    ensures var f := Execute(job, executable, jobname, loader, npLoad, canWrite, files, outcome);
      && (f.result == Failure(ScriptUnwritable(job.scriptFile)) <==> !canWrite(job.scriptFile))
      && (!canWrite(job.scriptFile) ==> f.files == files && f.events == [])
      && (canWrite(job.scriptFile) ==> f == Lifecycle(job, executable, jobname, loader, npLoad, files, outcome))
  {
  }

  /** The wrapper removes the script exactly when the job ran to an exit
      code of 0; until then it is there unless the job deleted it. A job
      with exit code 0 that deleted its own script makes the removal fail,
      and the call raises that error before any result is loaded. */
  lemma ScriptRemovedAfterExitZero(job: Job, executable: string, jobname: string, loader: Option<Loader>,
                                   npLoad: string -> Option<ArrayValue>, files: map<string, string>, outcome: JobOutcome)
    ensures var f := Lifecycle(job, executable, jobname, loader, npLoad, files, outcome);
      var left := JobFiles(job, files, outcome);
      && (job.scriptFile !in f.files <==> job.scriptFile !in left || (outcome.Finished? && outcome.returnCode == 0))
      && (outcome.Finished? && outcome.returnCode == 0 ==>
            (f.result == Failure(ScriptMissing(job.scriptFile)) <==> job.scriptFile !in left))
      && (outcome.Finished? && outcome.returnCode == 0 && job.scriptFile !in left ==> f.files == left)
  {
  }

  /** What a prepared job contains: the result file next to the first
      trajectory part, the script next to it, and the script text is the
      template with the command line in place of its one placeholder. */
  lemma PreparedJob(executable: string, a: string, b: string, kwargs: seq<Arg>, id: Option<string>,
                    jobname: string, traj: Trajectory)
    requires traj.trajectoryFiles != []
    requires NoBraces(a) && NoBraces(b)
    requires NoSlash(IdText(id)) && NoSlash(jobname)
    ensures var r := PrepareJob(executable, a + "{cmd_str}" + b, kwargs, id, jobname, traj);
      && r.Success?
      && Split(r.value.resultFile) == (Split(traj.trajectoryFiles[0]).0,
                                      ResultName(Split(traj.trajectoryFiles[0]).1, traj.trajectoryHash, id))
      && Split(r.value.scriptFile) == (Split(traj.trajectoryFiles[0]).0,
                                      Split(traj.trajectoryFiles[0]).1 + "_" + jobname + ".slurm")
      && r.value.script == a + r.value.cmd + b
  {
    var first := traj.trajectoryFiles[0];
    var result := ResultFile(first, traj.trajectoryHash, id);
    FormatSinglePlaceholder(a, b, CmdLine(executable, traj, result, kwargs));
    ResultFileLocation(first, traj.trajectoryHash, id);
    ScriptFileLocation(first, jobname);
  }

  /** The SLURM wrapper's identity does not depend on the order in which the
      keyword arguments were given. */
  lemma SlurmIdOrderIndependent(a: KwDict, b: KwDict, exeDigest: nat, digest: string -> nat)
    requires AsMap(a) == AsMap(b)
    ensures IdString(a, exeDigest, digest) == IdString(b, exeDigest, digest)
  {
    IdentityOfSameMapping(a, b, exeDigest, digest);
  }
}
