/** Snapshot-to-file persistence: the write-then-rename file protocol, and the
    debounced writer that coalesces bursts of triggers into single writes. */
module Persist {
  import opened Collections

  /** What the serializer does: encode can fail, decode rejects corrupt bytes,
      and boot falls back to the empty value. */
  datatype Codec<!T> = Codec(encode: T -> Option<Bytes>, decode: Bytes -> Option<T>, empty: T)

  ghost predicate Faithful<T(!new)>(c: Codec<T>) {
    forall v: T :: c.encode(v).Some? ==> c.decode(c.encode(v).value) == Some(v)
  }

  // ---- one snapshot, run to completion ----

  datatype Path = Path(directory: seq<string>, name: string)

  function TmpPath(p: Path): Path {
    p.(name := p.name + ".tmp")
  }

  lemma TmpPathDistinct(p: Path, q: Path)
    ensures TmpPath(p) != p
    ensures TmpPath(p) == TmpPath(q) ==> p == q
    ensures TmpPath(p).directory == p.directory
  {
    assert |TmpPath(p).name| == |p.name| + 4;
    if TmpPath(p) == TmpPath(q) {
      assert TmpPath(p).name[..|p.name|] == p.name;
      assert TmpPath(q).name[..|q.name|] == q.name;
    }
  }

  /** How the operating system treats one snapshot: the write stops early after
      some bytes, the rename is refused, or all goes well. */
  datatype Fault = WriteStops(after: nat) | RenameRefused | NoFault

  function Restored<T>(c: Codec<T>, file: Option<Bytes>): Option<T> {
    if file.None? then None else c.decode(file.value)
  }

  class Disk {
    var files: map<Path, Bytes>

    constructor ()
      ensures files == map[]
    {
      files := map[];
    }

    function At(p: Path): Option<Bytes>
      reads this
    {
      if p in files then Some(files[p]) else None
    }

    /** The destination ends up as the complete new encoding or exactly as it
        was; the only other path touched is the temporary sibling, which is gone
        after a success. */
    method SnapshotToFile<T>(c: Codec<T>, path: Path, data: T, fault: Fault) returns (ok: bool)
      modifies this
      ensures ok <==> c.encode(data).Some? && fault.NoFault?
      ensures ok ==> At(path) == c.encode(data) && At(TmpPath(path)) == None
      ensures !ok ==> At(path) == old(At(path))
      ensures forall q | q != path && q != TmpPath(path) :: At(q) == old(At(q))
    {
      TmpPathDistinct(path, path);
      var tmp := TmpPath(path);
      var json := c.encode(data);
      if json.None? {
        return false;
      }
      if fault.WriteStops? {
        files := files[tmp := json.value[..Min(fault.after, |json.value|)]];
        return false;
      }
      files := files[tmp := json.value];
      if fault.RenameRefused? {
        return false;
      }
      files := (files - {tmp})[path := json.value];
      return true;
    }

    /** A missing or corrupt file is not an error: it reads as None. */
    method RestoreFromFile<T>(c: Codec<T>, path: Path) returns (r: Option<T>)
      ensures r == if path in files then c.decode(files[path]) else None
    {
      if path !in files {
        return None;
      }
      r := c.decode(files[path]);
    }

    /** Saving and loading give the value back; a save that failed loads
        whatever was there before. */
    method SaveThenLoad<T(!new)>(c: Codec<T>, path: Path, data: T, fault: Fault) returns (r: Option<T>)
      requires Faithful(c)
      modifies this
      ensures c.encode(data).Some? && fault.NoFault? ==> r == Some(data)
      ensures !(c.encode(data).Some? && fault.NoFault?) ==> r == Restored(c, old(At(path)))
    {
      var _ := SnapshotToFile(c, path, data, fault);
      r := RestoreFromFile(c, path);
    }
  }

  // ---- the debounced writer, step by step ----

  /** Where one spawned task stands. The task that wins the armed flag sleeps,
      takes its copy of the data (read number r of the run), writes the
      temporary file piece by piece, renames it and clears the flag. */
  datatype Pc =
    | Won
    | Sleeping
    | Awake
    | Holding(r: nat)
    | Writing(r: nat, len: nat)
    | Written(r: nat)
    | Finishing(r: nat, ok: bool)
    | Done

  /** values: everything the guarded data has held, the current value last.
      copies: for each copy taken, the index in values of what was copied.
      landed: the read numbers whose bytes reached the destination, in order. */
  datatype State<T> = State(
    values: seq<T>,
    armed: bool,
    tasks: seq<Pc>,
    dest: Option<Bytes>,
    tmp: Option<Bytes>,
    copies: seq<nat>,
    landed: seq<nat>)

  datatype Step<T> =
    | Update(v: T)
    | Schedule
    | Spawn(t: nat)
    | Wake(t: nat)
    | Read(t: nat)
    | SerializeFails(t: nat)
    | Open(t: nat)
    | Append(t: nat, n: nat)
    | Close(t: nat)
    | WriteFails(t: nat)
    | Rename(t: nat)
    | RenameFails(t: nat)
    | Clear(t: nat)
    | Crash

  function Boot<T>(c: Codec<T>, dest: Option<Bytes>): T {
    match Restored(c, dest)
    case Some(v) => v
    case None => c.empty
  }

  function Start<T>(c: Codec<T>, dest: Option<Bytes>, tmp: Option<Bytes>): State<T> {
    State([Boot(c, dest)], false, [], dest, tmp, [], [])
  }

  /** The bytes a task that made read r is writing. */
  function Payload<T>(c: Codec<T>, s: State<T>, r: nat): Option<Bytes> {
    if r < |s.copies| && s.copies[r] < |s.values| then c.encode(s.values[s.copies[r]]) else None
  }

  predicate Enabled<T>(c: Codec<T>, s: State<T>, step: Step<T>) {
    match step
    case Update(_) => true
    case Schedule => true
    case Crash => true
    case Spawn(t) => t < |s.tasks| && s.tasks[t].Won?
    case Wake(t) => t < |s.tasks| && s.tasks[t].Sleeping?
    case Read(t) => t < |s.tasks| && s.tasks[t].Awake? && s.values != []
    case SerializeFails(t) => t < |s.tasks| && s.tasks[t].Holding? && Payload(c, s, s.tasks[t].r).None?
    case Open(t) => t < |s.tasks| && s.tasks[t].Holding? && Payload(c, s, s.tasks[t].r).Some?
    case Append(t, n) =>
      && t < |s.tasks| && s.tasks[t].Writing? && Payload(c, s, s.tasks[t].r).Some?
      && 0 < n <= |Payload(c, s, s.tasks[t].r).value| - s.tasks[t].len
    case Close(t) =>
      && t < |s.tasks| && s.tasks[t].Writing? && Payload(c, s, s.tasks[t].r).Some?
      && s.tasks[t].len == |Payload(c, s, s.tasks[t].r).value|
    case WriteFails(t) => t < |s.tasks| && (s.tasks[t].Holding? || s.tasks[t].Writing?)
    case Rename(t) => t < |s.tasks| && s.tasks[t].Written? && s.tmp.Some?
    case RenameFails(t) => t < |s.tasks| && s.tasks[t].Written?
    case Clear(t) => t < |s.tasks| && s.tasks[t].Finishing?
  }

  /** Opening truncates the temporary file, appending adds to whatever bytes are
      in it, and the rename moves whatever it holds: nothing here knows that the
      task is alone. A crash loses the tasks, the flag and the memory, and the
      next boot loads the destination. */
  function Apply<T>(c: Codec<T>, s: State<T>, step: Step<T>): State<T>
    requires Enabled(c, s, step)
  {
    match step
    case Update(v) => s.(values := s.values + [v])
    case Schedule => if s.armed then s else s.(armed := true, tasks := s.tasks + [Won])
    case Spawn(t) => s.(tasks := s.tasks[t := Sleeping])
    case Wake(t) => s.(tasks := s.tasks[t := Awake])
    case Read(t) => s.(tasks := s.tasks[t := Holding(|s.copies|)], copies := s.copies + [|s.values| - 1])
    case SerializeFails(t) => s.(tasks := s.tasks[t := Finishing(s.tasks[t].r, false)])
    case Open(t) => s.(tasks := s.tasks[t := Writing(s.tasks[t].r, 0)], tmp := Some([]))
    case Append(t, n) =>
      var pc := s.tasks[t];
      var chunk := Payload(c, s, pc.r).value[pc.len..pc.len + n];
      s.(tasks := s.tasks[t := Writing(pc.r, pc.len + n)],
         tmp := Some((if s.tmp.Some? then s.tmp.value else []) + chunk))
    case Close(t) => s.(tasks := s.tasks[t := Written(s.tasks[t].r)])
    case WriteFails(t) => s.(tasks := s.tasks[t := Finishing(s.tasks[t].r, false)])
    case Rename(t) =>
      s.(tasks := s.tasks[t := Finishing(s.tasks[t].r, true)],
         dest := s.tmp, tmp := None, landed := s.landed + [s.tasks[t].r])
    case RenameFails(t) => s.(tasks := s.tasks[t := Finishing(s.tasks[t].r, false)])
    case Clear(t) => s.(tasks := s.tasks[t := Done], armed := false)
    case Crash => s.(tasks := [], armed := false, values := s.values + [Boot(c, s.dest)])
  }

  ghost predicate Legal<T>(c: Codec<T>, s: State<T>, steps: seq<Step<T>>)
    decreases |steps|
  {
    steps == [] || (Enabled(c, s, steps[0]) && Legal(c, Apply(c, s, steps[0]), steps[1..]))
  }

  ghost function Exec<T>(c: Codec<T>, s: State<T>, steps: seq<Step<T>>): State<T>
    requires Legal(c, s, steps)
    decreases |steps|
  {
    if steps == [] then s else Exec(c, Apply(c, s, steps[0]), steps[1..])
  }

  // ---- the invariant ----

  /** Some task won the flag and has not cleared it. */
  predicate Live(pc: Pc) {
    !pc.Done?
  }

  predicate HasRead(pc: Pc) {
    pc.Holding? || pc.Writing? || pc.Written? || pc.Finishing?
  }

  /** Only the newest task can be live, and it is exactly while the flag is set. */
  ghost predicate OneWriter<T>(s: State<T>) {
    && (forall t | 0 <= t < |s.tasks| - 1 :: s.tasks[t].Done?)
    && (s.armed <==> |s.tasks| > 0 && Live(s.tasks[|s.tasks| - 1]))
  }

  /** The logs are well formed: reads never go back in time and files land in
      strictly increasing read order. */
  ghost predicate LogsOrdered<T>(s: State<T>) {
    && s.values != []
    && (forall i | 0 <= i < |s.copies| :: s.copies[i] < |s.values|)
    && (forall i, j | 0 <= i < j < |s.copies| :: s.copies[i] <= s.copies[j])
    && (forall i | 0 <= i < |s.landed| :: s.landed[i] < |s.copies|)
    && (forall i, j | 0 <= i < j < |s.landed| :: s.landed[i] < s.landed[j])
  }

  /** The destination is untouched, or one complete encoding of the value that
      the last landed read copied. */
  ghost predicate DestinationWhole<T>(c: Codec<T>, s: State<T>, dest0: Option<Bytes>) {
    if s.landed == [] then s.dest == dest0
    else s.dest.Some? && s.dest == Payload(c, s, s.landed[|s.landed| - 1])
  }

  /** A task past its read made the newest read, and its bytes are where its
      program counter says. */
  ghost predicate TaskConsistent<T>(c: Codec<T>, s: State<T>, pc: Pc) {
    HasRead(pc) ==>
      && pc.r == |s.copies| - 1
      && (if pc.Finishing? && pc.ok then s.landed != [] && s.landed[|s.landed| - 1] == pc.r
          else s.landed == [] || s.landed[|s.landed| - 1] < pc.r)
      && (pc.Writing? ==>
            && Payload(c, s, pc.r).Some? && pc.len <= |Payload(c, s, pc.r).value|
            && s.tmp == Some(Payload(c, s, pc.r).value[..pc.len]))
      && (pc.Written? ==> s.tmp.Some? && s.tmp == Payload(c, s, pc.r))
  }

  /** The task spawned last, the only one that can be live. */
  function Current<T>(s: State<T>): Pc {
    if s.tasks == [] then Done else s.tasks[|s.tasks| - 1]
  }

  ghost predicate Inv<T>(c: Codec<T>, s: State<T>, dest0: Option<Bytes>) {
    && OneWriter(s)
    && LogsOrdered(s)
    && DestinationWhole(c, s, dest0)
    && TaskConsistent(c, s, Current(s))
  }

  lemma PayloadsPersist<T>(c: Codec<T>, s: State<T>, step: Step<T>, r: nat)
    requires LogsOrdered(s) && Enabled(c, s, step) && r < |s.copies|
    ensures Payload(c, Apply(c, s, step), r) == Payload(c, s, r)
  {
    var s' := Apply(c, s, step);
    assert s'.copies[r] == s.copies[r];
    assert s'.values[s.copies[r]] == s.values[s.copies[r]];
  }

  lemma StepKeepsOneWriter<T>(c: Codec<T>, s: State<T>, step: Step<T>)
    requires OneWriter(s) && Enabled(c, s, step)
    ensures OneWriter(Apply(c, s, step))
  {
  }

  lemma StepKeepsLogs<T>(c: Codec<T>, s: State<T>, step: Step<T>)
    requires OneWriter(s) && LogsOrdered(s) && TaskConsistent(c, s, Current(s)) && Enabled(c, s, step)
    ensures LogsOrdered(Apply(c, s, step))
  {
  }

  lemma StepKeepsDestination<T>(c: Codec<T>, s: State<T>, step: Step<T>, dest0: Option<Bytes>)
    requires Inv(c, s, dest0) && Enabled(c, s, step)
    ensures DestinationWhole(c, Apply(c, s, step), dest0)
  {
    if s.landed != [] {
      PayloadsPersist(c, s, step, s.landed[|s.landed| - 1]);
    }
    if step.Rename? {
      PayloadsPersist(c, s, step, Current(s).r);
    }
  }

  lemma StepKeepsTask<T>(c: Codec<T>, s: State<T>, step: Step<T>, dest0: Option<Bytes>)
    requires Inv(c, s, dest0) && Enabled(c, s, step)
    ensures TaskConsistent(c, Apply(c, s, step), Current(Apply(c, s, step)))
  {
    var pc := Current(s);
    if HasRead(pc) {
      PayloadsPersist(c, s, step, pc.r);
      var whole := Payload(c, s, pc.r);
      match step {
        case Append(t, n) =>
          assert whole.value[..pc.len] + whole.value[pc.len..pc.len + n] == whole.value[..pc.len + n];
        case Close(t) =>
          assert whole.value[..pc.len] == whole.value;
        case _ =>
      }
    }
  }

  lemma StepKeepsInv<T>(c: Codec<T>, s: State<T>, step: Step<T>, dest0: Option<Bytes>)
    requires Inv(c, s, dest0) && Enabled(c, s, step)
    ensures Inv(c, Apply(c, s, step), dest0)
  {
    StepKeepsOneWriter(c, s, step);
    StepKeepsLogs(c, s, step);
    StepKeepsDestination(c, s, step, dest0);
    StepKeepsTask(c, s, step, dest0);
  }

  lemma {:induction false} RunKeepsInv<T>(c: Codec<T>, s: State<T>, steps: seq<Step<T>>, dest0: Option<Bytes>)
    requires Inv(c, s, dest0) && Legal(c, s, steps)
    ensures Inv(c, Exec(c, s, steps), dest0)
    decreases |steps|
  {
    if steps != [] {
      StepKeepsInv(c, s, steps[0], dest0);
      RunKeepsInv(c, Apply(c, s, steps[0]), steps[1..], dest0);
    }
  }

  // ---- what every run guarantees ----

  /** Whatever happens, crashes included, the destination is the file that was
      there at the start or one complete encoding of a value the data held when
      some task read it; and the flag admits one writer at a time. */
  lemma CrashSafe<T>(c: Codec<T>, dest0: Option<Bytes>, tmp0: Option<Bytes>, steps: seq<Step<T>>)
    requires Legal(c, Start(c, dest0, tmp0), steps)
    ensures var s := Exec(c, Start(c, dest0, tmp0), steps);
            || s.dest == dest0
            || exists r | 0 <= r < |s.copies| ::
                 s.copies[r] < |s.values| && s.dest.Some? && s.dest == c.encode(s.values[s.copies[r]])
    ensures var s := Exec(c, Start(c, dest0, tmp0), steps);
            forall t, u | 0 <= t < |s.tasks| && 0 <= u < |s.tasks| && Live(s.tasks[t]) && Live(s.tasks[u]) :: t == u
    ensures var s := Exec(c, Start(c, dest0, tmp0), steps);
            s.armed <==> exists t :: 0 <= t < |s.tasks| && Live(s.tasks[t])
  {
    RunKeepsInv(c, Start(c, dest0, tmp0), steps, dest0);
    var s := Exec(c, Start(c, dest0, tmp0), steps);
    if s.landed != [] {
      assert s.dest == c.encode(s.values[s.copies[s.landed[|s.landed| - 1]]]);
    }
    assert s.armed ==> Live(s.tasks[|s.tasks| - 1]);
  }

  /** Files land in read order: a later file never carries an older value. */
  lemma LandsInReadOrder<T>(c: Codec<T>, dest0: Option<Bytes>, tmp0: Option<Bytes>, steps: seq<Step<T>>, i: nat, j: nat)
    requires Legal(c, Start(c, dest0, tmp0), steps)
    requires i < j < |Exec(c, Start(c, dest0, tmp0), steps).landed|
    ensures var s := Exec(c, Start(c, dest0, tmp0), steps);
            s.landed[i] < s.landed[j] < |s.copies| && s.copies[s.landed[i]] <= s.copies[s.landed[j]] < |s.values|
  {
    RunKeepsInv(c, Start(c, dest0, tmp0), steps, dest0);
  }

  /** After a crash at any point the next boot loads the newest value whose
      rename happened, or what the original file held. */
  lemma RecoversLastLanded<T(!new)>(c: Codec<T>, dest0: Option<Bytes>, tmp0: Option<Bytes>, steps: seq<Step<T>>)
    requires Faithful(c) && Legal(c, Start(c, dest0, tmp0), steps)
    ensures var s := Exec(c, Start(c, dest0, tmp0), steps);
            var rebooted := Apply(c, s, Crash).values[|s.values|];
            if s.landed == [] then
              rebooted == if dest0.None? || c.decode(dest0.value).None? then c.empty else c.decode(dest0.value).value
            else var r := s.landed[|s.landed| - 1];
                 r < |s.copies| && s.copies[r] < |s.values| && rebooted == s.values[s.copies[r]]
  {
    RunKeepsInv(c, Start(c, dest0, tmp0), steps, dest0);
  }

  // ---- what coalescing loses: exactly what arrives after the read ----

  /** Task t has not read yet, or read something at least as new as value h. */
  ghost predicate WillCover<T>(s: State<T>, t: nat, h: nat) {
    && t < |s.tasks|
    && h < |s.values|
    && (HasRead(s.tasks[t]) ==> s.tasks[t].r < |s.copies| && s.copies[s.tasks[t].r] >= h)
  }

  lemma {:induction false} CoverKept<T>(c: Codec<T>, s: State<T>, steps: seq<Step<T>>, t: nat, h: nat)
    requires Legal(c, s, steps) && WillCover(s, t, h)
    requires forall i | 0 <= i < |steps| :: !steps[i].Crash?
    ensures WillCover(Exec(c, s, steps), t, h)
    ensures s.values <= Exec(c, s, steps).values
    decreases |steps|
  {
    if steps != [] {
      assert !steps[0].Crash?;
      CoverKept(c, Apply(c, s, steps[0]), steps[1..], t, h);
    }
  }

  /** Task t cleared its snapshot for the flag: the bytes landed. */
  predicate Succeeded<T>(s: State<T>, t: nat) {
    t < |s.tasks| && s.tasks[t].Finishing? && s.tasks[t].ok
  }

  /** A task past its read keeps its read, and copies once taken stay. */
  lemma {:induction false} ReadKept<T>(c: Codec<T>, s: State<T>, steps: seq<Step<T>>, t: nat)
    requires Legal(c, s, steps) && t < |s.tasks| && HasRead(s.tasks[t]) && s.tasks[t].r < |s.copies|
    requires forall i | 0 <= i < |steps| :: !steps[i].Crash?
    ensures var s' := Exec(c, s, steps);
            && s.copies <= s'.copies && t < |s'.tasks|
            && (HasRead(s'.tasks[t]) ==> s'.tasks[t].r == s.tasks[t].r)
    decreases |steps|
  {
    if steps != [] {
      var next := Apply(c, s, steps[0]);
      assert !steps[0].Crash?;
      assert s.copies <= next.copies && t < |next.tasks|;
      if HasRead(next.tasks[t]) {
        ReadKept(c, next, steps[1..], t);
      } else {
        DoneStays(c, next, steps[1..], t);
      }
    }
  }

  lemma {:induction false} DoneStays<T>(c: Codec<T>, s: State<T>, steps: seq<Step<T>>, t: nat)
    requires Legal(c, s, steps) && t < |s.tasks| && s.tasks[t].Done?
    requires forall i | 0 <= i < |steps| :: !steps[i].Crash?
    ensures var s' := Exec(c, s, steps);
            s.copies <= s'.copies && t < |s'.tasks| && s'.tasks[t].Done?
    decreases |steps|
  {
    if steps != [] {
      assert !steps[0].Crash?;
      DoneStays(c, Apply(c, s, steps[0]), steps[1..], t);
    }
  }

  /** The pending task has not read yet, or what it copied is still current. */
  predicate CopyCurrent<T>(s: State<T>) {
    HasRead(Current(s)) ==> Current(s).r < |s.copies| && s.copies[Current(s).r] == |s.values| - 1
  }

  /** Once the pending task has landed its bytes and is about to clear the flag, no
      crash having come between, the file is the encoding of value number k; k is
      at least as new as the value current now exactly when the task has not read
      yet or its copy is still current. */
  lemma PendingTaskCovers<T>(c: Codec<T>, s: State<T>, after: seq<Step<T>>, dest0: Option<Bytes>) returns (k: nat)
    requires Inv(c, s, dest0) && s.armed && Legal(c, s, after)
    requires forall i | 0 <= i < |after| :: !after[i].Crash?
    requires Succeeded(Exec(c, s, after), |s.tasks| - 1)
    ensures var s' := Exec(c, s, after);
            && s'.tasks[|s.tasks| - 1].r < |s'.copies| && k == s'.copies[s'.tasks[|s.tasks| - 1].r]
            && k < |s'.values| && s'.dest.Some? && s'.dest == c.encode(s'.values[k])
            && (k >= |s.values| - 1 <==> CopyCurrent(s))
  {
    var t := |s.tasks| - 1;
    var s' := Exec(c, s, after);
    RunKeepsInv(c, s, after, dest0);
    if HasRead(Current(s)) {
      ReadKept(c, s, after, t);
      CoverKept(c, s, after, t, s.copies[s.tasks[t].r]);
    } else {
      CoverKept(c, s, after, t, |s.values| - 1);
    }
    LandedIsLast(c, s', t, dest0);
    k := s'.copies[s'.tasks[t].r];
  }

  lemma LandedIsLast<T>(c: Codec<T>, s: State<T>, t: nat, dest0: Option<Bytes>)
    requires Inv(c, s, dest0) && Succeeded(s, t)
    ensures t == |s.tasks| - 1
    ensures s.tasks[t].r < |s.copies| && s.copies[s.tasks[t].r] < |s.values|
    ensures s.dest.Some? && s.dest == c.encode(s.values[s.copies[s.tasks[t].r]])
  {
  }

  /** Call schedule() in any reachable state: it wins the flag or a task is pending,
      and whenever that task is about to clear the flag with its bytes landed, no
      crash having come between, the file holds a value at least as new as the one
      current at the call if and only if the task had not read at the call or what
      it had copied was still current. */
  lemma ScheduledUpdateReachesDisk<T>(
    c: Codec<T>, dest0: Option<Bytes>, tmp0: Option<Bytes>, before: seq<Step<T>>, after: seq<Step<T>>)
    returns (k: nat)
    requires Legal(c, Start(c, dest0, tmp0), before)
    requires var s := Apply(c, Exec(c, Start(c, dest0, tmp0), before), Schedule);
             && Legal(c, s, after)
             && (forall i | 0 <= i < |after| :: !after[i].Crash?)
             && s.tasks != [] && Succeeded(Exec(c, s, after), |s.tasks| - 1)
    ensures var s := Apply(c, Exec(c, Start(c, dest0, tmp0), before), Schedule);
            var s' := Exec(c, s, after);
            && s'.tasks[|s.tasks| - 1].r < |s'.copies| && k == s'.copies[s'.tasks[|s.tasks| - 1].r]
            && k < |s'.values| && s'.dest.Some? && s'.dest == c.encode(s'.values[k])
            && (k >= |s.values| - 1 <==> CopyCurrent(s))
  {
    var s0 := Exec(c, Start(c, dest0, tmp0), before);
    RunKeepsInv(c, Start(c, dest0, tmp0), before, dest0);
    StepKeepsInv(c, s0, Schedule, dest0);
    k := PendingTaskCovers(c, Apply(c, s0, Schedule), after, dest0);
  }

  /** A task that reads the older value and carries it to disk. */
  function WriteOut<T>(size: nat): seq<Step<T>> {
    if size == 0 then [Close(0)] + ([Rename(0)] + ([Clear(0)] + []))
    else [Append(0, size)] + ([Close(0)] + ([Rename(0)] + ([Clear(0)] + [])))
  }

  /** The update to the newer value and its schedule() arrive between that
      task's read and its write. */
  function LateSchedule<T>(older: T, newer: T, size: nat): seq<Step<T>> {
    [Update(older)] + ([Schedule] + ([Spawn(0)] + ([Wake(0)] + ([Read(0)]
    + ([Update(newer)] + ([Schedule] + ([Open(0)] + WriteOut(size))))))))
  }

  lemma Prepend<T>(c: Codec<T>, s: State<T>, step: Step<T>, s': State<T>, rest: seq<Step<T>>)
    requires Enabled(c, s, step) && Apply(c, s, step) == s' && Legal(c, s', rest)
    ensures Legal(c, s, [step] + rest)
    ensures Exec(c, s, [step] + rest) == Exec(c, s', rest)
  {
    assert ([step] + rest)[1..] == rest;
  }

  /** From boot to the second, swallowed call. */
  lemma ReachesSecondCall<T>(c: Codec<T>, older: T, newer: T, rest: seq<Step<T>>)
    requires var s := BeforeWrite(c, older, newer);
             Legal(c, s, rest)
    ensures var steps := [Update(older)] + ([Schedule] + ([Spawn(0)] + ([Wake(0)] + ([Read(0)]
                         + ([Update(newer)] + ([Schedule] + rest))))));
            && Legal(c, Start(c, None, None), steps)
            && Exec(c, Start(c, None, None), steps) == Exec(c, BeforeWrite(c, older, newer), rest)
  {
    hide Legal, Exec;
    var s0 := Start(c, None, None);
    var s1 := s0.(values := s0.values + [older]);
    var s2 := s1.(armed := true, tasks := [Won]);
    var s5 := s2.(tasks := [Holding(0)], copies := [1]);
    var s6 := BeforeWrite(c, older, newer);
    Prepend(c, s6, Schedule, s6, rest);
    Prepend(c, s5, Update(newer), s6, [Schedule] + rest);
    Prepend(c, s2.(tasks := [Awake]), Read(0), s5, [Update(newer)] + ([Schedule] + rest));
    Prepend(c, s2.(tasks := [Sleeping]), Wake(0), s2.(tasks := [Awake]),
      [Read(0)] + ([Update(newer)] + ([Schedule] + rest)));
    Prepend(c, s2, Spawn(0), s2.(tasks := [Sleeping]),
      [Wake(0)] + ([Read(0)] + ([Update(newer)] + ([Schedule] + rest))));
    Prepend(c, s1, Schedule, s2,
      [Spawn(0)] + ([Wake(0)] + ([Read(0)] + ([Update(newer)] + ([Schedule] + rest)))));
    Prepend(c, s0, Update(older), s1,
      [Schedule] + ([Spawn(0)] + ([Wake(0)] + ([Read(0)] + ([Update(newer)] + ([Schedule] + rest))))));
  }

  /** One task holds a copy of the older value while the newer is current. */
  function BeforeWrite<T>(c: Codec<T>, older: T, newer: T): State<T> {
    State([Boot(c, None)] + [older] + [newer], true, [Holding(0)], None, None, [1], [])
  }

  /** The guarantee stops at the read: that second call is swallowed, and the
      flag clears with the newer value only in memory. */
  lemma LateScheduleIsSwallowed<T>(c: Codec<T>, older: T, newer: T)
    requires c.encode(older).Some?
    ensures var steps := LateSchedule(older, newer, |c.encode(older).value|);
            && Legal(c, Start(c, None, None), steps)
            && var s := Exec(c, Start(c, None, None), steps);
               && !s.armed && s.tasks == [Done]
               && s.values != [] && s.values[|s.values| - 1] == newer
               && s.dest == c.encode(older)
  {
    hide Legal, Exec, WriteOut;
    var held := BeforeWrite(c, older, newer);
    var open := held.(tasks := [Writing(0, 0)], tmp := Some([]));
    WritesOut(c, open, c.encode(older).value);
    var w: seq<Step<T>> := WriteOut(|c.encode(older).value|);
    Prepend(c, held, Open(0), open, w);
    ReachesSecondCall(c, older, newer, [Open(0)] + w);
  }

  lemma WritesOut<T>(c: Codec<T>, s: State<T>, bytes: Bytes)
    requires s.tasks == [Writing(0, 0)] && s.tmp == Some([]) && Payload(c, s, 0) == Some(bytes)
    ensures Legal(c, s, WriteOut(|bytes|))
    ensures Exec(c, s, WriteOut(|bytes|))
            == s.(tasks := [Done], armed := false, dest := Some(bytes), tmp := None, landed := s.landed + [0])
  {
    var full := s.(tasks := [Writing(0, |bytes|)], tmp := Some(bytes));
    var written := full.(tasks := [Written(0)]);
    var renamed := written.(tasks := [Finishing(0, true)], dest := Some(bytes), tmp := None, landed := s.landed + [0]);
    var cleared := renamed.(tasks := [Done], armed := false);
    Prepend(c, renamed, Clear(0), cleared, []);
    Prepend(c, written, Rename(0), renamed, [Clear(0)] + []);
    Prepend(c, full, Close(0), written, [Rename(0)] + ([Clear(0)] + []));
    if |bytes| > 0 {
      assert [] + bytes[0..0 + |bytes|] == bytes;
      Prepend(c, s, Append(0, |bytes|), full, [Close(0)] + ([Rename(0)] + ([Clear(0)] + [])));
    } else {
      assert full == s;
    }
  }
}
