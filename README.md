# Trajectory function wrappers and trajectory conversion, modelled in Dafny

This project models two parts of asyncmd's `trajectory` package:

- **The trajectory function wrappers** in `functionwrapper.py`. Each wrapper holds keyword arguments and an identity string. The identity is a sum of blake2b digests, rendered in decimal. It is recomputed whenever the keyword arguments, the function source or the executable change. Calling a wrapper on a trajectory hands the trajectory and the identity to the trajectory's caching layer.
  - The Python wrapper runs a callable in a worker thread.
  - The SLURM wrapper does more. It builds a command line and fills it into a submission-script template. It writes the script next to the trajectory and submits it as a batch job. It waits for the job, then loads and removes the result file.
- **`TrajectoryConcatenator.concatenate` and `FrameExtractor.extract`** in `convert.py`.
  - Concatenation writes slices of several trajectories, in order, into one file. It can negate velocities for negative steps. It can drop a frame whose time equals the last time written.
  - Extraction writes one frame, either unmodified or with inverted velocities.

## Files

| file | module | what it holds |
|---|---|---|
| `common.dfy` | `Common` | `Option` and `Result` |
| `numerals.dfy` | `Numerals` | `str(n)` for naturals and its inverse, the string prefix `s[:k]` |
| `paths.dfy` | `Paths` | `os.path.split` and `os.path.join`, and their round trip |
| `shellquote.dfy` | `ShellQuote` | `shlex.quote`, and a POSIX-shell word lexer that is its partner |
| `identity.dfy` | `Identity` | keyword-argument dicts, the digest sum, the `_get_id_str` loop |
| `submission.dfy` | `Submission` | the result-file and script names, the command line, the template's `format` |
| `functionwrapper.dfy` | `FunctionWrapper` | the base keyword loop, `__call__`, the Python and SLURM wrapper classes, the batch-job lifecycle |
| `convert.dfy` | `Convert` | slicing, the concatenation loops, deduplication, the frame extractors |

## How the model stands in for the outside world

Foreign calls are parameters. The model assumes nothing about them beyond their types.

**Function wrappers:**
- Digests: `digest: string -> nat` stands for blake2b over a string. `exeDigest` is the digest of an executable's bytes; it is `None` when the file cannot be read.
- `inspect.getsource` is a `SourceLookup` carried by the callable. It either finds the source, raises `OSError` (`NotRetrievable`) or raises `TypeError` (`Unsupported`).
- `ensure_executable_available`, reading a template file and `np.load` are function-valued fields of `Env`.
- The thread pool's run of the function is the parameter `run`.
- Files are a `FileSystem` object holding a path-to-content map. Its `canWrite` says which paths `open(path, 'w')` accepts; for any other path, `open` raises `OSError`.
- The batch system is a `BatchQueue` that logs submissions and kills.
- How the job went is a `JobOutcome`. It is one of: cancelled during submission (possibly after the batch system took the job), cancelled while waiting, another exception (likewise), or finished with a return code, stdout, stderr, the files it deleted and the files it wrote.
- `asyncio.Semaphore` is a counter.

**Conversion:**
- A trajectory reader is the sequence of frames it yields.
- The disk is a `Disk` object mapping paths to entries.
- The frame writer is a `Writer` object that collects the frames written to it.

## Behaviour worth knowing

The model follows the code in each of the cases below. The lemmas and contracts named show the behaviour.

- **Python wrapper, identity without source.** Suppose `inspect.getsource` fails with `OSError`. The `function` setter then clears the identity. But `__init__` afterwards assigns the keyword arguments, and that setter, `call_kwargs`, recomputes the identity from `str(None)`. So a freshly built wrapper always has an identity, and calls on trajectories go through the cache (`UnretrievableSourceStillHasId`, and the `id` clause of `PyWrapper.Create`). This contradicts the setter's log message that no caching will be performed.
- **SLURM wrapper, failing executable setter.** The executable is stored before the new identity is computed. An unreadable executable therefore leaves the new executable next to the old identity (`SlurmWrapper.SetExecutable`).
- **SLURM wrapper, cancelled submission.** A cancellation while the job is being submitted reaches the `except` clause before `slurm_proc` is bound. The result is an unbound-variable error and no kill. If the batch system had already taken the job, that job is left running (`KillOnCancel`).
- **SLURM wrapper, `slurm_jobname` through `**kwargs`.** The keyword loop sets the name through the property, so it lands in `_slurm_jobname`. `_slurm_jobname` alone takes only `None`, but once a name is set it takes another (`PrivateFieldsChecked`).
- **Concatenation, `None` step.** With `invert_v_for_negative_step` set, a slice whose step is `None` raises `TypeError` (`None < 0`) when its first frame is about to be written. An empty selection raises nothing (`NegationOf`, `Feed`).
- **Concatenation, empty first selection.** With `remove_double_frames`, an empty first selection leaves `last_time_seen` unbound. The first frame of a later trajectory then raises an unbound-variable error, before the step is looked at, whatever the inversion flag. The only exception is a later slice with step zero that comes before any frame; it stops the run with its own `ValueError` (`ConcatDedupUnbound`).
- **Extraction, bad index.** The writer is opened before the frame is indexed. The model assumes that opening a writer creates its output file. Under that assumption, an out-of-range index leaves an empty output file behind (`Extract`).

## Model

| member | source | states |
|---|---|---|
| `FunctionWrapper.ApplyInitKwargs` | src/asyncmd/trajectory/functionwrapper.py:51-62 | the `**kwargs` loop of the base initializer, entry by entry, equals the reference `InitKwargs`: `getattr` with a default, the `isinstance` check against the current value, and `setattr`, which goes through the `slurm_jobname` property for a SLURM wrapper; it raises the `TypeError` at the first mismatching entry |
| `FunctionWrapper.InitKwargsFails` | src/asyncmd/trajectory/functionwrapper.py:47-62 | for a dict of keyword arguments, the loop fails exactly when some entry names an attribute the object already has, the private `_id` and `_call_kwargs` included, with a value of another type (for a SLURM wrapper: as long as `_slurm_jobname` is not passed next to the property) |
| `FunctionWrapper.InitKwargsSets` | src/asyncmd/trajectory/functionwrapper.py:52-62 | on success no attribute is added or dropped; each attribute reads the value given for it or what it read before; names without an attribute are ignored |
| `FunctionWrapper.InitKwargsJobname` | src/asyncmd/trajectory/functionwrapper.py:355-357 | a job name given to the `slurm_jobname` property during the loop is written to `_slurm_jobname` |
| `FunctionWrapper.SlurmJobnameFromKwargs` | src/asyncmd/trajectory/functionwrapper.py:332-333 | because `_slurm_jobname` is set before the base initializer runs, a SLURM wrapper ends its keyword loop with the job name passed as `slurm_jobname`, or none |
| `FunctionWrapper.SlurmJobnameType` | src/asyncmd/trajectory/functionwrapper.py:349-353 | while the loop runs the property reads the string `CVfunc_id_None`, so `slurm_jobname` accepts exactly the strings |
| `FunctionWrapper.PrivateFieldsChecked` | src/asyncmd/trajectory/functionwrapper.py:47-62 | `_id=` with a string is a `TypeError` for both wrappers, and so is `_slurm_jobname=` with a string when given alone, because each holds `None`; after `slurm_jobname=` has set a name, `_slurm_jobname=` may replace it |
| `FunctionWrapper.BaseCall` | src/asyncmd/trajectory/functionwrapper.py:96-115 | a call goes to the cache with the trajectory and the identity exactly when the argument is a trajectory and there is an identity; otherwise it is a `TypeError` naming the argument's type |
| `FunctionWrapper.PyCall` | src/asyncmd/trajectory/functionwrapper.py:233-254 | the Python wrapper never raises on dispatch: it agrees with the base call where that delegates to the cache, and calls the function directly with the keyword arguments where the base call would raise |
| `FunctionWrapper.PyWrapper.Call` | src/asyncmd/trajectory/functionwrapper.py:247-254 | the method dispatches as `PyCall` on the wrapper's identity, function and keyword arguments |
| `FunctionWrapper.PyWrapper.Create` | src/asyncmd/trajectory/functionwrapper.py:132-150 | construction fails exactly when the keyword loop fails (on the object with `_id` and `_call_kwargs` set), `getsource` raises `TypeError`, or `call_kwargs` is not a dict, and the error is the first of these in that order; on success the function and keyword arguments are stored and the identity is that of the keyword arguments and `str` of the source; when no source could be retrieved, that is `str(None)` |
| `FunctionWrapper.PyWrapper.SetFunction` | src/asyncmd/trajectory/functionwrapper.py:177-191 | the callable is always stored; a found source sets source and identity, `OSError` clears both, `TypeError` is returned and leaves both unchanged; the identity invariant holds afterwards |
| `FunctionWrapper.PyWrapper.SetCallKwargs` | src/asyncmd/trajectory/functionwrapper.py:75-80 | a non-dict is a `TypeError` that changes nothing; a dict is stored and the identity recomputed from it and the current source |
| `FunctionWrapper.PyWrapper.GetCallKwargs` | src/asyncmd/trajectory/functionwrapper.py:68-73 | the getter returns the current keyword arguments as a value; nothing done to the result reaches the wrapper |
| `FunctionWrapper.PyWrapper.GetValuesForTrajectory` | src/asyncmd/trajectory/functionwrapper.py:193-231 | the result is the function run on the trajectory with the current keyword arguments; the `MAX_PROCESS` permit count ends where it began |
| `FunctionWrapper.UnretrievableSourceStillHasId` | src/asyncmd/trajectory/functionwrapper.py:145-150 | a wrapper built from a callable whose source cannot be retrieved, then called on a trajectory, hands the trajectory to the cache under the identity of the keyword arguments and `str(None)`; only a failing keyword loop stops it |
| `Identity.GetIdStr` | src/asyncmd/trajectory/functionwrapper.py:157-171 | `_get_id_str` adds the digests of `str(v)` and `str(k)` for every entry, then the content digest, and renders the sum in decimal; the result is a non-empty string of digits |
| `Identity.IdentityOfSameMapping` | src/asyncmd/trajectory/functionwrapper.py:164-170 | two dicts with the same mapping, in any insertion order, give the same identity |
| `Identity.IdentityOrderIndependent` | src/asyncmd/trajectory/functionwrapper.py:164-168 | permuting the entries does not change the identity |
| `Identity.KwargsDigestPermutation` | src/asyncmd/trajectory/functionwrapper.py:164-168 | the digest sum depends only on the multiset of entries |
| `Identity.IdStringEquality` | src/asyncmd/trajectory/functionwrapper.py:170-171 | two identity strings are equal exactly when their digest sums are |
| `Numerals.DecimalRoundTrip` | src/asyncmd/trajectory/functionwrapper.py:171 | reading back the decimal rendering gives the number: `int(str(n)) == n` |
| `Numerals.DecimalInjective` | src/asyncmd/trajectory/functionwrapper.py:382 | distinct sums have distinct renderings |
| `FunctionWrapper.SlurmWrapper.Create` | src/asyncmd/trajectory/functionwrapper.py:298-347 | construction fails exactly when the keyword loop (on the object with `_slurm_jobname`, `_id` and `_call_kwargs` set) fails, the template file cannot be read, the executable is unavailable or unreadable, or `call_kwargs` is not a dict, each with its own error and in that order; on success the identity invariant holds, the job name is the one the loop left in `_slurm_jobname`, the template is the literal script (when it starts with `#!`) or the file's text, the executable is what `ensure_executable_available` found, and the keyword arguments and loader are stored |
| `FunctionWrapper.TemplateText` | src/asyncmd/trajectory/functionwrapper.py:339-344 | a template starting with `#!` is used as it is; anything else is read as a file path |
| `FunctionWrapper.SlurmWrapper.SetExecutable` | src/asyncmd/trajectory/functionwrapper.py:388-393 | an unavailable executable changes nothing; otherwise the found path is stored, and the identity is recomputed or, for an unreadable file, kept as it was, with an error |
| `FunctionWrapper.SlurmWrapper.RecomputeId` | src/asyncmd/trajectory/functionwrapper.py:364-382 | the identity becomes the one of the keyword arguments and the executable's bytes; an unreadable executable is an error that keeps the old identity |
| `FunctionWrapper.SlurmWrapper.SetCallKwargs` | src/asyncmd/trajectory/functionwrapper.py:75-80 | a non-dict changes nothing; a dict is stored and the identity recomputed from it and the executable |
| `FunctionWrapper.SlurmWrapper.GetCallKwargs` | src/asyncmd/trajectory/functionwrapper.py:68-73 | the getter returns the current keyword arguments |
| `FunctionWrapper.SlurmWrapper.SlurmJobname` | src/asyncmd/trajectory/functionwrapper.py:349-353 | the job name is the one set, or `CVfunc_id_` followed by the identity when none was set |
| `FunctionWrapper.SlurmWrapper.SetSlurmJobname` | src/asyncmd/trajectory/functionwrapper.py:355-357 | the setter stores the value as it is |
| `FunctionWrapper.SlurmWrapper.Call` | src/asyncmd/trajectory/functionwrapper.py:96-115 | the SLURM wrapper dispatches as the base call |
| `FunctionWrapper.SlurmIdOrderIndependent` | src/asyncmd/trajectory/functionwrapper.py:371-381 | the SLURM identity does not depend on the order of the keyword arguments |
| `Submission.ResultFileLocation` | src/asyncmd/trajectory/functionwrapper.py:411-418 | the result file lies in the directory of the first trajectory part and is named `<name>_<first five hash digits>_CVfunc_id_<id>` |
| `Submission.ResultFileDistinguishes` | src/asyncmd/trajectory/functionwrapper.py:411-418 | for one trajectory part, two result files coincide exactly when the first five digits of the hashes and the identities coincide |
| `Submission.ScriptFileLocation` | src/asyncmd/trajectory/functionwrapper.py:440-441 | the script sits next to the trajectory part and is named `<name>_<jobname>.slurm` |
| `Submission.BuildCmdStr` | src/asyncmd/trajectory/functionwrapper.py:421-432 | the command-line loop builds exactly `CmdLine`: executable, structure file, the trajectory parts, the result file, then ` key value` for every entry, with list elements and scalars shell-quoted |
| `Submission.CmdLineWords` | src/asyncmd/trajectory/functionwrapper.py:421-432 | read back as shell words, the command line is the argument vector: each quoted value is one word, each list element one word, whatever characters they contain |
| `ShellQuote.QuoteRoundTrip` | src/asyncmd/trajectory/functionwrapper.py:432 | a quoted value reads back as exactly one shell word, the value itself |
| `ShellQuote.QuoteAllRoundTrip` | src/asyncmd/trajectory/functionwrapper.py:430 | the space-joined quoted list elements read back as exactly those elements |
| `ShellQuote.QuoteSafeWord` | src/asyncmd/trajectory/functionwrapper.py:432 | a value made only of safe characters is written unquoted |
| `Paths.SplitJoin` | src/asyncmd/trajectory/functionwrapper.py:411-418 | splitting the joined result path gives back the directory part and the file name |
| `Submission.FormatSinglePlaceholder` | src/asyncmd/trajectory/functionwrapper.py:438 | a template with one `{cmd_str}` and no other braces formats to the template with the command line in its place |
| `Submission.FormatWithoutPlaceholder` | src/asyncmd/trajectory/functionwrapper.py:438 | a template without braces is left unchanged |
| `FunctionWrapper.PreparedJob` | src/asyncmd/trajectory/functionwrapper.py:411-441 | a prepared job has its result file and script next to the first trajectory part, under the names above, and its script is the template with the command line filled in |
| `FunctionWrapper.SlurmWrapper.GetValuesForTrajectory` | src/asyncmd/trajectory/functionwrapper.py:395-492 | the method produces exactly the `Run` specification: its result, the files afterwards, and the submissions and kills asked of the queue, including a script that cannot be written; both permit counts end where they began |
| `FunctionWrapper.SlurmWrapper.RunJob` | src/asyncmd/trajectory/functionwrapper.py:445-492 | the result, files and queue events are those of `Execute`: a script that cannot be written raises `OSError` with no file changed and nothing submitted, otherwise the job runs as `Lifecycle` says; the `MAX_FILES_OPEN` and `SLURM_MAX_JOB` permit counts end where they began, whatever the outcome |
| `FunctionWrapper.UnwritableScriptSubmitsNothing` | src/asyncmd/trajectory/functionwrapper.py:445-450 | the call raises the write error exactly when the script path cannot be opened, and then no file changes and nothing reaches the batch system; once the script is written, the call is `Lifecycle` |
| `FunctionWrapper.SlurmWrapper.AwaitJob` | src/asyncmd/trajectory/functionwrapper.py:451-489 | the `try`/`except`/`else` around submission and waiting follows `Lifecycle` for every modelled outcome: cancellation during submission or while waiting, another exception, or a finished job, then the removal of its script, which fails when the job deleted it |
| `FunctionWrapper.SlurmWrapper.Collect` | src/asyncmd/trajectory/functionwrapper.py:479-489 | the default loader reads `<result>.npy` and removes it; a custom loader gets the result path, and the result file is removed afterwards; a missing file is an error |
| `FunctionWrapper.NonZeroExitKeepsScript` | src/asyncmd/trajectory/functionwrapper.py:469-478 | a non-zero exit code raises with the executable, the trajectory, the job id, the code, stderr and stdout; the wrapper removes nothing, so the files are as the job left them and the script stays unless the job deleted it |
| `FunctionWrapper.SuccessCleansUp` | src/asyncmd/trajectory/functionwrapper.py:479-489 | a successful call comes from a job that exited with 0, and leaves neither the script nor the result file behind |
| `FunctionWrapper.LifecycleFrame` | src/asyncmd/trajectory/functionwrapper.py:445-489 | no file other than the script, the result file and what the job deleted or wrote is touched |
| `FunctionWrapper.KillOnCancel` | src/asyncmd/trajectory/functionwrapper.py:451-467 | the job is killed exactly when the call is cancelled while waiting, and the kill follows the submission; a cancellation during submission raises the unbound-variable error without a kill, so a job the batch system had already taken is left running |
| `FunctionWrapper.RaisedKeepsScript` | src/asyncmd/trajectory/functionwrapper.py:451-467 | any other exception from submission or waiting propagates as it is; the script stays and nothing is killed |
| `FunctionWrapper.ScriptRemovedAfterExitZero` | src/asyncmd/trajectory/functionwrapper.py:469-479 | the wrapper removes the script exactly when the job finished with exit code 0; a script the job deleted itself makes `os.remove` raise `FileNotFoundError` before any result is loaded, and the files stay as the job left them |
| `Convert.Indices` | src/asyncmd/trajectory/convert.py:119 | `slice.indices` raises `ValueError` exactly for a zero step; otherwise its bounds are clamped into the frame range for the step's direction |
| `Convert.IndicesInRange` | src/asyncmd/trajectory/convert.py:119 | every index a slice selects is a valid frame index |
| `Convert.RangeBetween` | src/asyncmd/trajectory/convert.py:119 | a range's elements lie between its ends and go up or down by the step |
| `Convert.SelectAll` | src/asyncmd/trajectory/convert.py:119 | `[::]` and `[::1]` select every frame in order |
| `Convert.SelectReversed` | src/asyncmd/trajectory/convert.py:119 | `[::-1]` selects every frame, last first |
| `Convert.NegationOf` | src/asyncmd/trajectory/convert.py:120-121 | velocities are negated exactly when the flag is set and the step is negative; a `None` step with the flag set is the comparison `TypeError` |
| `Convert.InversionRule` | src/asyncmd/trajectory/convert.py:137-138 | each written frame of a segment is negated exactly when the flag is set and that segment's step is negative |
| `Convert.Concatenator.WriteSegment` | src/asyncmd/trajectory/convert.py:119-125 | one frame loop writes what `Segment` specifies: the frames after deduplication, with velocities negated as required, or stops with the exception the loop raises |
| `Convert.Concatenator.Concatenate` | src/asyncmd/trajectory/convert.py:59-144 | the up-front checks fail without touching the disk; otherwise the output file holds the frames of the `Concat` specification, also when the run stopped with an exception, and the result names the output and the structure file |
| `Convert.ConcatChecks` | src/asyncmd/trajectory/convert.py:101-116 | an existing output without `overwrite` is refused first; no trajectories or no slices is refused; otherwise the result is the chosen structure file (`struct_out` or the first trajectory's) when it exists, and the error naming it when it does not |
| `Convert.Timestep.InvertVelocities` | src/asyncmd/trajectory/convert.py:121 | the in-place loop negates every velocity component of the buffer |
| `Convert.ConcatPlain` | src/asyncmd/trajectory/convert.py:119-141 | without deduplication the output is the concatenation, in order, of every zipped segment's selection; the run fails exactly when one segment fails |
| `Convert.ConcatDedup` | src/asyncmd/trajectory/convert.py:119-141 | with deduplication, every frame of the first selection is written, followed by the later frames squeezed against the last time seen, across trajectory boundaries |
| `Convert.ConcatDedupUnbound` | src/asyncmd/trajectory/convert.py:119-133 | with deduplication and an empty first selection, the run ends as `ReachesFrame` says, whatever the inversion flag: the unbound-variable error with nothing written when a later frame is reached, the error of a later zero-step slice met before any frame, or a run with no output |
| `Convert.DedupKeeps` | src/asyncmd/trajectory/convert.py:119-141 | the deduplicated output is a subsequence of the plain one and holds the same set of times; it starts with the whole first selection, and no later frame has the time of the frame written just before it |
| `Convert.SqueezeSubseq` | src/asyncmd/trajectory/convert.py:130-133 | skipping frames keeps a subsequence |
| `Convert.SqueezeNoRepeat` | src/asyncmd/trajectory/convert.py:130-141 | no kept frame has the time of the frame kept before it |
| `Convert.SqueezeTimes` | src/asyncmd/trajectory/convert.py:130-141 | a skipped frame's time is already present, so no time is lost |
| `Convert.FeedPlain` | src/asyncmd/trajectory/convert.py:128-141 | a segment without deduplication appends its processed frames, or raises the comparison error on a non-empty selection with a `None` step |
| `Convert.FeedDedup` | src/asyncmd/trajectory/convert.py:128-141 | a later segment with deduplication appends its frames squeezed against the last time seen |
| `Convert.FeedFirst` | src/asyncmd/trajectory/convert.py:119-125 | the first segment writes every selected frame, duplicates included, and remembers the last one's time when deduplicating |
| `Convert.NegatedTwice` | src/asyncmd/trajectory/convert.py:121 | negating the velocities twice gives the frame back; time and positions are untouched |
| `Convert.Timestep.ApplyModification` | src/asyncmd/trajectory/convert.py:245-275 | the timestep afterwards is the frame as modified by the chosen extractor |
| `Convert.ModificationEffect` | src/asyncmd/trajectory/convert.py:245-275 | the unmodified extractor leaves the frame as it is; the inverting one negates each velocity component, changes nothing else, and undoes itself when applied twice |
| `Convert.PyIndex` | src/asyncmd/trajectory/convert.py:236 | an index is valid exactly when `-n <= idx < n`; a negative index counts from the end |
| `Convert.ExtractChecks` | src/asyncmd/trajectory/convert.py:222-232 | an existing output without `overwrite` is refused first; otherwise the check succeeds exactly when the chosen structure file (`struct_out` or the input's) exists, and the error names it when it does not |
| `Convert.Extract` | src/asyncmd/trajectory/convert.py:183-239 | the checks fail without touching the disk; an invalid index raises `IndexError` and, since the model takes an opened writer to have created its file, leaves an empty output file; otherwise the output holds exactly the modified frame at the index |

## Left out

- Concurrency: `asyncio`, the event loop and the worker thread are not modelled. Each wrapper call is one sequential run, and the thread pool is the parameter `run`.
- `FunctionWrapper.Semaphore.Acquire`: waiting on a semaphore with no permits left is not modelled (this method requires a free permit). Because of this, a cancellation while waiting for `SLURM_MAX_JOB` is not modelled either.
- Inheritance: Dafny classes here have no common base class. So the accessors that both wrappers inherit from `TrajectoryFunctionWrapper`, such as `FunctionWrapper.SlurmWrapper.GetCallKwargs` and its twin in `PyWrapper`, are written once in each class.
- blake2b, `inspect.getsource`, `ensure_executable_available`, `np.load`, reading the template and reading the executable's bytes: all are foreign, and all are parameters.
- The SLURM process: polling, `sleep_time`, standard-file removal and the job id's format are not modelled. Submission is an event, and how the job went is the `JobOutcome` parameter.
- `FunctionWrapper.SlurmWrapper.Collect`: the custom loader sees only the result path; the file system's state is not passed to it.
- `FunctionWrapper.SlurmWrapper.Create`: of the attributes the keyword loop may set, only `slurm_jobname` is carried over to the object. For every other attribute the model gives only the loop's verdict; the other values are left out because no later operation in the model reads them.
- `FunctionWrapper.InitKwargs`: the public properties other than `slurm_jobname` are plain attributes here. `setattr` on the read-only `id` raises `AttributeError`, and `call_kwargs=` runs its setter before the wrapper can compute an identity. Neither is modelled: when `classAttrs` lists such a name, the loop treats it as an ordinary attribute.
- `FunctionWrapper.PyWrapper.SetCallKwargs` and `FunctionWrapper.SlurmWrapper.SetCallKwargs`: the setter stores the caller's dict itself, not a copy, and so does the shared default `call_kwargs={}`. Changing that dict afterwards changes the keyword arguments without recomputing the identity. The model stores a value. So `Valid()` and `Consistent()` cover only changes made through the setters.
- `Submission.FormatTemplate`: only the `{cmd_str}` placeholder itself is formatted. A conversion (`{cmd_str!r}`), a format spec (`{cmd_str:>80}`) or an index (`{cmd_str[0]}`), all of which `str.format` accepts, is treated as a format error.
- `Convert.ConcatDedup` and `Convert.DedupKeeps`: stated only when every zipped segment can be processed (`Segments` succeeds). One successful deduplicating run falls outside: with the inversion flag set, a later slice with a `None` step whose frames all repeat the last time. Those frames are skipped before the step is compared.
- `FunctionWrapper.IsInstance`: compares exact type names. Subclass relations between Python types are not modelled.
- Logging, `__repr__`, the `id` and `function` getters, and the warning about an existing script file are left out: they change no state the model keeps.
- `os.path.abspath` is not modelled. Paths are taken as given, which is the same as assuming they are already absolute.
- MDAnalysis: reading universes and the `n_atoms` of the writer are not modelled; a reader is the sequence of frames it yields. Slices follow Python's `slice.indices`. MDAnalysis's own bound checks are not part of this model.
- The `(start, stop, step)` tuples are always three integers or `None`. Unpacking or type errors from other shapes are left out.
- `Convert.Timestep.InvertVelocities`, `Convert.Timestep.ApplyModification` and `Convert.Concatenator.WriteSegment`: every frame is assumed to carry velocities. Negating the velocities of a trajectory without them raises MDAnalysis's `NoDataError`, in `concatenate` and in the inverting extractor, and the model has no such error.
- Frame times, positions and velocities are integers, so floating-point rounding, including the sign of `-0.0`, is not modelled. Time equality is exact equality.
- `RandomVelocitiesFrameExtractor` draws random velocities, and randomness is outside the model.
- When writing the output fails, it is not modelled: the writer always accepts the frames.
- `Convert.Extract`: whether an MDAnalysis writer creates its file when it is opened or only at the first frame is not modelled. The model assumes it is created when opened, so the empty file left after a bad index rests on that assumption.
- `FunctionWrapper.FileSystem.Write`: only `open` failing is modelled. A write that fails after the file was opened, leaving part of the script behind, is not.
