/** A chunked snapshot upload: what is on disk, one pump pass in memory, and negative-acks. */
module Snapshot {
  import opened Machine
  import opened Chunks

  const CHUNK_SIZE := 128 * 1024
  const CHUNKS_PER_PASS := 8

  // ---- cutting the file

  // Chunks in order, all full but the last, that join to the file.
  method Split(file: seq<byte>) returns (chunks: seq<seq<byte>>)
    ensures Join(chunks) == file
    ensures |chunks| == (|file| + CHUNK_SIZE - 1) / CHUNK_SIZE
    ensures forall i :: 0 <= i < |chunks| ==> 0 < |chunks[i]| <= CHUNK_SIZE
    ensures forall i :: 0 <= i < |chunks| - 1 ==> |chunks[i]| == CHUNK_SIZE
  {
    hide Join;
    chunks := [];
    var off := 0;
    assert file[..0] == [];
    JoinNone(chunks);
    while off < |file|
      invariant 0 <= off <= |file| && Join(chunks) == file[..off]
      invariant off < |file| ==> off == |chunks| * CHUNK_SIZE
      invariant off == |file| ==> |chunks| == (|file| + CHUNK_SIZE - 1) / CHUNK_SIZE
      invariant forall i :: 0 <= i < |chunks| ==> 0 < |chunks[i]| <= CHUNK_SIZE
      invariant off < |file| ==> forall i :: 0 <= i < |chunks| ==> |chunks[i]| == CHUNK_SIZE
      invariant forall i :: 0 <= i < |chunks| - 1 ==> |chunks[i]| == CHUNK_SIZE
    {
      var next := if |file| - off < CHUNK_SIZE then |file| else off + CHUNK_SIZE;
      JoinMore(chunks, file[off..next]);
      assert file[..off] + file[off..next] == file[..next];
      chunks := chunks + [file[off..next]];
      off := next;
    }
    assert file[..off] == file;
  }

  // ---- one transfer

  datatype Place = Pending | Done | Expired

  datatype Meta = Meta(next: seq<nat>, metaSent: bool)

  // `disk` is the saved meta file; `pass` is a pump pass under way, with its own copy.
  // `due` are the chunks that have to be published yet: all at first, and those a saved
  // negative-ack lists, until published again.
  datatype Transfer = Transfer(total: nat, place: Place, disk: Meta, pass: Option<Meta>, sent: nat,
                               published: set<nat>, due: set<nat>)

  function Elements(s: seq<nat>): set<nat> {
    set x | x in s
  }

  function Indices(n: nat): seq<nat> {
    seq(n, i => i)
  }

  function All(n: nat): (s: set<nat>)
    ensures forall i: nat :: i in s <==> i < n
  {
    AllIndices(n);
    Elements(Indices(n))
  }

  lemma AllIndices(n: nat)
    ensures forall i: nat :: i in Elements(Indices(n)) <==> i < n
  {
    forall i: nat | i < n ensures i in Elements(Indices(n)) {
      assert Indices(n)[i] == i;
    }
  }

  function Staged(total: nat): Transfer {
    Transfer(total, Pending, Meta(Indices(total), false), None, 0, {}, All(total))
  }

  // `saved` tells whether the meta file could be replaced.
  datatype Step =
    | Begin
    | SendMeta(ok: bool, saved: bool)
    | SendChunk(ok: bool, saved: bool)
    | ChunkUnreadable
    | EndPass(moved: bool, saved: bool)
    | Expire(moved: bool)
    | Crash
    | Reactivate(moved: bool)
    | Nack(missing: seq<nat>, saved: bool)

  predicate CanDo(t: Transfer, s: Step) {
    match s
    case Begin => t.place == Pending && t.pass == None
    case SendMeta(_, _) => t.pass.Some? && !t.pass.value.metaSent
    case SendChunk(_, _) =>
      t.pass.Some? && t.pass.value.metaSent && t.pass.value.next != [] && t.sent < CHUNKS_PER_PASS
    case ChunkUnreadable =>
      t.pass.Some? && t.pass.value.metaSent && t.pass.value.next != [] && t.sent < CHUNKS_PER_PASS
    case EndPass(_, _) =>
      t.pass.Some? && t.pass.value.metaSent && (t.pass.value.next == [] || t.sent == CHUNKS_PER_PASS)
    case Expire(_) => t.place == Pending && t.pass == None
    case Crash => true
    case Reactivate(_) => t.place == Done
    case Nack(missing, _) =>
      t.place == Pending && missing != [] && forall i :: 0 <= i < |missing| ==> missing[i] < t.total
  }

  function Stop(t: Transfer, saved: bool): Transfer
    requires t.pass.Some?
  {
    t.(disk := if saved then t.pass.value else t.disk, pass := None)
  }

  function Do(t: Transfer, s: Step): Transfer
    requires CanDo(t, s)
  {
    match s
    case Begin => t.(pass := Some(t.disk), sent := 0)
    case SendMeta(ok, saved) =>
      var t1 := t.(pass := Some(t.pass.value.(metaSent := ok)));
      if ok && saved then t1.(disk := t1.pass.value) else Stop(t1, saved)
    case SendChunk(ok, saved) =>
      if !ok then Stop(t, saved)
      else
        var m := t.pass.value;
        t.(pass := Some(m.(next := m.next[1..])), sent := t.sent + 1,
           published := t.published + {m.next[0]}, due := t.due - {m.next[0]})
    case ChunkUnreadable => t.(pass := None)
    case EndPass(moved, saved) =>
      if t.pass.value.next != [] then Stop(t, saved)
      else t.(pass := None, place := if moved then Done else t.place)
    case Expire(moved) => t.(place := if moved then Expired else t.place)
    case Crash => t.(pass := None)
    case Reactivate(moved) => t.(place := if moved then Pending else t.place)
    case Nack(missing, saved) =>
      if saved then t.(disk := t.disk.(next := missing), due := t.due + Elements(missing)) else t
  }

  predicate Possible(t: Transfer, steps: seq<Step>)
    decreases |steps|
  {
    steps != [] ==> CanDo(t, steps[0]) && Possible(Do(t, steps[0]), steps[1..])
  }

  function Run(t: Transfer, steps: seq<Step>): Transfer
    requires Possible(t, steps)
    decreases |steps|
  {
    if steps == [] then t else Run(Do(t, steps[0]), steps[1..])
  }

  predicate NoNack(steps: seq<Step>) {
    forall i :: 0 <= i < |steps| ==> !steps[i].Nack?
  }

  // ---- nothing is forgotten

  // Every chunk is due or has been published, and what is due is queued, on disk and in
  // the pass under way; a transfer that is done owes nothing.
  predicate Kept(t: Transfer) {
    && All(t.total) <= t.published + t.due
    && (t.place == Pending ==> t.due <= Elements(t.disk.next))
    && (t.pass.Some? ==> t.place == Pending && t.due <= Elements(t.pass.value.next))
    && (t.place == Done ==> t.due == {})
    && t.sent <= CHUNKS_PER_PASS
  }

  // A negative-ack that lists everything due, and is saved while no pass is under way or
  // lists nothing that the pass is not going to publish anyway.
  predicate Honours(t: Transfer, s: Step) {
    s.Nack? && s.saved ==>
      && t.due <= Elements(s.missing)
      && (t.pass.Some? ==> Elements(s.missing) <= Elements(t.pass.value.next))
  }

  lemma StagedKept(total: nat)
    ensures Kept(Staged(total))
  {
    assert All(total) == Elements(Indices(total));
  }

  // A negative-ack keeps all of this if it is one like that, and so does every other step.
  lemma StepKeepsIff(t: Transfer, s: Step)
    requires Kept(t) && CanDo(t, s)
    ensures Kept(Do(t, s)) <==> Honours(t, s)
  {
    if s.SendChunk? {
      var next := t.pass.value.next;
      assert next == [next[0]] + next[1..];
    }
  }

  predicate AllHonour(t: Transfer, steps: seq<Step>)
    requires Possible(t, steps)
    decreases |steps|
  {
    steps != [] ==> Honours(t, steps[0]) && AllHonour(Do(t, steps[0]), steps[1..])
  }

  lemma {:induction false} RunKept(t: Transfer, steps: seq<Step>)
    requires Kept(t) && Possible(t, steps) && AllHonour(t, steps)
    ensures Kept(Run(t, steps))
    decreases |steps|
  {
    hide Kept, Honours, CanDo, Do;
    if steps != [] {
      StepKeepsIff(t, steps[0]);
      RunKept(Do(t, steps[0]), steps[1..]);
    }
  }

  lemma {:induction false} RunTotal(t: Transfer, steps: seq<Step>)
    requires Possible(t, steps)
    ensures Run(t, steps).total == t.total
    decreases |steps|
  {
    hide CanDo;
    if steps != [] {
      RunTotal(Do(t, steps[0]), steps[1..]);
    }
  }

  // Through publish failures, failed saves, crashes and negative-acks, a transfer that is
  // done has published every chunk, and every listed chunk again.
  lemma DoneIsComplete(total: nat, steps: seq<Step>)
    requires Possible(Staged(total), steps) && AllHonour(Staged(total), steps)
    ensures
      var t := Run(Staged(total), steps);
      && (forall i: nat :: i < total ==> i in t.published || i in t.disk.next || t.place == Expired)
      && (t.place == Done ==> All(total) <= t.published && t.due == {})
  {
    hide Run, Possible, AllHonour;
    StagedKept(total);
    RunKept(Staged(total), steps);
    RunTotal(Staged(total), steps);
    var t := Run(Staged(total), steps);
    forall i: nat | i < total ensures i in t.published || i in t.disk.next || t.place == Expired {
      assert i in All(t.total);
    }
  }

  // The network thread can save a negative-ack in the middle of a pass: the pass does not
  // see it, and the transfer is done without the chunk that was asked for.
  lemma NackLostInPass()
    ensures
      var steps := [Begin, SendMeta(true, true), SendChunk(true, true), Nack([0, 1], true),
                    SendChunk(true, true), EndPass(true, true)];
      Possible(Staged(2), steps) && Run(Staged(2), steps).place == Done && 0 in Run(Staged(2), steps).due
  {
    var t0 := Staged(2);
    assert t0.disk.next == [0, 1];
    var t1 := Do(t0, Begin);
    var t2 := Do(t1, SendMeta(true, true));
    var t3 := Do(t2, SendChunk(true, true));
    assert t3.pass.value.next == [1];
    var t4 := Do(t3, Nack([0, 1], true));
    assert 0 in Elements([0, 1]);
    var t5 := Do(t4, SendChunk(true, true));
    assert t5.pass.value.next == [];
    var t6 := Do(t5, EndPass(true, true));
    var e := EndPass(true, true);
    var c := SendChunk(true, true);
    RunOne(t5, e, []);
    RunOne(t4, c, [e]);
    RunOne(t3, Nack([0, 1], true), [c, e]);
    RunOne(t2, c, [Nack([0, 1], true), c, e]);
    RunOne(t1, SendMeta(true, true), [c, Nack([0, 1], true), c, e]);
    RunOne(t0, Begin, [SendMeta(true, true), c, Nack([0, 1], true), c, e]);
  }

  lemma RunOne(t: Transfer, s: Step, rest: seq<Step>)
    requires CanDo(t, s) && Possible(Do(t, s), rest)
    ensures Possible(t, [s] + rest) && Run(t, [s] + rest) == Run(Do(t, s), rest)
  {
    assert ([s] + rest)[1..] == rest;
  }

  lemma {:induction false} RunMore(t: Transfer, steps: seq<Step>, s: Step)
    requires Possible(t, steps) && CanDo(Run(t, steps), s)
    ensures Possible(t, steps + [s]) && Run(t, steps + [s]) == Do(Run(t, steps), s)
    decreases |steps|
  {
    hide CanDo, Do;
    if steps == [] {
      RunOne(t, s, []);
      assert steps + [s] == [s] + [];
    } else {
      RunMore(Do(t, steps[0]), steps[1..], s);
      assert (steps + [s])[1..] == steps[1..] + [s];
    }
  }

  lemma {:induction false} RunJoin(t: Transfer, a: seq<Step>, b: seq<Step>)
    requires Possible(t, a) && Possible(Run(t, a), b)
    ensures Possible(t, a + b) && Run(t, a + b) == Run(Run(t, a), b)
    ensures NoNack(a) && NoNack(b) ==> NoNack(a + b)
    decreases |a|
  {
    hide CanDo, Do;
    if a == [] {
      assert a + b == b;
    } else {
      RunJoin(Do(t, a[0]), a[1..], b);
      assert (a + b)[1..] == a[1..] + b;
    }
  }

  lemma NothingRun(t: Transfer)
    ensures Possible(t, []) && Run(t, []) == t && Elements([]) == {}
  {
  }

  lemma ElementsMore(s: seq<nat>, k: nat)
    requires k < |s|
    ensures Elements(s[..k + 1]) == Elements(s[..k]) + {s[k]}
  {
    assert s[..k + 1] == s[..k] + [s[k]];
  }

  lemma BeginRun(t: Transfer)
    requires CanDo(t, Begin)
    ensures Possible(t, [Begin]) && Run(t, [Begin]) == t.(pass := Some(t.disk), sent := 0) && NoNack([Begin])
  {
    RunMore(t, [], Begin);
    assert [] + [Begin] == [Begin];
  }

  lemma EndRun(t: Transfer, moved: bool, saved: bool)
    requires CanDo(t, EndPass(moved, saved))
    ensures var s := EndPass(moved, saved); Possible(t, [s]) && Run(t, [s]) == Do(t, s) && NoNack([s])
    ensures
      var m := t.pass.value;
      Do(t, EndPass(moved, saved)) ==
        if m.next == [] then t.(pass := None, place := if moved then Done else t.place)
        else t.(pass := None, disk := if saved then m else t.disk)
  {
    RunMore(t, [], EndPass(moved, saved));
    assert [] + [EndPass(moved, saved)] == [EndPass(moved, saved)];
  }

  // ---- when a negative-ack is forgotten

  // Without another negative-ack the transfer can be done with a chunk still due.
  ghost predicate CanForget(t: Transfer) {
    exists steps :: NoNack(steps) && Possible(t, steps) && Run(t, steps).place == Done && Run(t, steps).due != {}
  }

  lemma {:induction false} NoNackHonours(t: Transfer, steps: seq<Step>)
    requires Possible(t, steps) && NoNack(steps)
    ensures AllHonour(t, steps)
    decreases |steps|
  {
    hide CanDo, Do;
    if steps != [] {
      NoNackHonours(Do(t, steps[0]), steps[1..]);
    }
  }

  function Queued(t: Transfer): seq<nat> {
    if t.pass.Some? then t.pass.value.next else t.disk.next
  }

  // How far a transfer is from publishing the next chunk.
  function Away(t: Transfer): nat {
    if t.pass == None then 2
    else (if t.sent == CHUNKS_PER_PASS then 3 else 0) + (if t.pass.value.metaSent then 0 else 1)
  }

  // What comes next when everything works.
  function Onward(t: Transfer): Step {
    if t.pass == None then Begin
    else if !t.pass.value.metaSent then SendMeta(true, true)
    else if t.pass.value.next != [] && t.sent < CHUNKS_PER_PASS then SendChunk(true, true)
    else EndPass(true, true)
  }

  lemma OnwardDoes(t: Transfer)
    requires t.place == Pending && t.sent <= CHUNKS_PER_PASS
    ensures CanDo(t, Onward(t))
    ensures
      var u := Do(t, Onward(t));
      && u.sent <= CHUNKS_PER_PASS
      && (if Onward(t).SendChunk? then Queued(t) != [] && Queued(u) == Queued(t)[1..] && u.due == t.due - {Queued(t)[0]}
          else u.due == t.due)
      && (if u.place == Done then Onward(t).EndPass? && Queued(t) == []
          else u.place == Pending && (Onward(t).SendChunk? || (Queued(u) == Queued(t) && Away(u) < Away(t))))
  {
  }

  // When everything works from here on, the transfer is done and has published what is queued.
  lemma {:induction false} Finish(t: Transfer) returns (steps: seq<Step>)
    requires t.place == Pending && t.sent <= CHUNKS_PER_PASS
    ensures NoNack(steps) && Possible(t, steps)
    ensures Run(t, steps).place == Done && Run(t, steps).due == t.due - Elements(Queued(t))
    decreases |Queued(t)|, Away(t)
  {
    hide CanDo, Do, Queued, Away, Elements;
    var s := Onward(t);
    OnwardDoes(t);
    QueueHead(Queued(t));
    var u := Do(t, s);
    var rest := [];
    if u.place == Done {
      NothingRun(u);
    } else {
      rest := Finish(u);
    }
    RunOne(t, s, rest);
    steps := [s] + rest;
  }

  lemma QueueHead(s: seq<nat>)
    ensures s == [] ==> Elements(s) == {}
    ensures s != [] ==> Elements(s) == {s[0]} + Elements(s[1..])
  {
    if s != [] {
      assert s == [s[0]] + s[1..];
    }
  }

  // From there a transfer that owes what is not queued is done without it.
  lemma OwesForgets(t: Transfer)
    requires t.place == Pending && t.sent <= CHUNKS_PER_PASS && !(t.due <= Elements(Queued(t)))
    ensures CanForget(t)
  {
    hide Run, Possible, Elements, Queued;
    var steps := Finish(t);
    var x :| x in t.due && x !in Elements(Queued(t));
    assert x in Run(t, steps).due;
  }

  lemma CrashForgets(t: Transfer)
    requires t.place == Pending && t.sent <= CHUNKS_PER_PASS && !(t.due <= Elements(t.disk.next))
    ensures CanForget(t)
  {
    hide Run, Possible, Elements;
    var u := Do(t, Crash);
    assert Queued(u) == t.disk.next;
    OwesForgets(u);
    var rest :| NoNack(rest) && Possible(u, rest) && Run(u, rest).place == Done && Run(u, rest).due != {};
    RunOne(t, Crash, rest);
    assert NoNack([Crash] + rest);
  }

  // A step can make the transfer forget a chunk later on exactly when it is a negative-ack
  // that omits a chunk due, or lists one that the pass under way is not going to publish.
  lemma ForgetIff(t: Transfer, s: Step)
    requires Kept(t) && CanDo(t, s)
    ensures CanForget(Do(t, s)) <==> !Honours(t, s)
  {
    hide Run, Possible, Elements, AllHonour, NoNack;
    var u := Do(t, s);
    StepKeepsIff(t, s);
    if Honours(t, s) {
      forall steps | NoNack(steps) && Possible(u, steps) && Run(u, steps).place == Done
        ensures Run(u, steps).due == {}
      {
        NoNackHonours(u, steps);
        RunKept(u, steps);
      }
    } else if t.due <= Elements(s.missing) {
      OwesForgets(u);
    } else {
      CrashForgets(u);
    }
  }

  // ---- the indices of a negative-ack

  predicate Ascending(s: seq<nat>) {
    forall i, j :: 0 <= i < j < |s| ==> s[i] < s[j]
  }

  // s with x in its place, unless it is there already.
  function Include(s: seq<nat>, x: nat): (r: seq<nat>)
    requires Ascending(s)
    ensures Ascending(r) && forall y :: y in r <==> y in s || y == x
  {
    if s == [] then [x]
    else
      HeadLeast(s);
      if x == s[0] then s
      else if x < s[0] then HeadBefore(x, s); [x] + s
      else
        var rest := Include(s[1..], x);
        HeadBefore(s[0], rest);
        [s[0]] + rest
  }

  lemma HeadLeast(s: seq<nat>)
    requires Ascending(s) && s != []
    ensures s == [s[0]] + s[1..] && Ascending(s[1..])
    ensures forall y :: y in s[1..] ==> s[0] < y
  {
  }

  lemma HeadBefore(x: nat, s: seq<nat>)
    requires Ascending(s) && forall y :: y in s ==> x < y
    ensures Ascending([x] + s)
  {
    assert forall j :: 0 <= j < |s| ==> s[j] in s;
  }

  function SortUnique(s: seq<nat>): (r: seq<nat>)
    ensures Ascending(r) && Elements(r) == Elements(s)
  {
    if s == [] then []
    else
      assert s == [s[0]] + s[1..];
      assert forall y :: y in Elements(s[1..]) <==> y in s[1..];
      Include(SortUnique(s[1..]), s[0])
  }

  // ---- one transfer directory, changed in place

  // Parameters stand for what publishing, saving, reading and moving come to.
  class TransferDir {
    const total: nat
    var place: Place
    var next: seq<nat>
    var metaSent: bool

    ghost var published: set<nat>
    ghost var due: set<nat>

    // Between two calls no pass is under way.
    ghost function Abs(sent: nat): Transfer
      reads this
    {
      Transfer(total, place, Meta(next, metaSent), None, sent, published, due)
    }

    constructor (chunks: nat)
      ensures Abs(0) == Staged(chunks)
    {
      total, place, next, metaSent := chunks, Pending, Indices(chunks), false;
      published, due := {}, All(chunks);
    }

    // The chunk loop of a pass: publish from the front of the queue until it is empty, a
    // chunk cannot be read or published, or eight have been sent.
    method SendChunks(queued: seq<nat>, chunkOk: nat -> bool, readable: nat -> bool, saved: bool)
      returns (left: seq<nat>, sent: nat, stopped: bool, ghost steps: seq<Step>)
      requires place == Pending
      modifies this`next, this`metaSent, this`published, this`due
      ensures
        var t := old(Abs(0)).(pass := Some(Meta(queued, true)));
        && Possible(t, steps) && NoNack(steps)
        && Run(t, steps) == Abs(sent).(pass := if stopped then None else Some(Meta(left, true)))
      ensures sent <= CHUNKS_PER_PASS && sent <= |queued| && left == queued[sent..]
      ensures published == old(published) + Elements(queued[..sent])
      ensures !stopped ==> (left == [] || sent == CHUNKS_PER_PASS) && next == old(next)
      ensures (forall i :: chunkOk(i) && readable(i)) ==> !stopped
    {
      hide Run, Possible, Elements;
      ghost var t0 := Abs(0).(pass := Some(Meta(queued, true)));
      left, sent, steps := queued, 0, [];
      NothingRun(t0);
      while left != [] && sent < CHUNKS_PER_PASS
        invariant Possible(t0, steps) && NoNack(steps) && next == old(next)
        invariant sent <= CHUNKS_PER_PASS && sent <= |queued| && left == queued[sent..]
        invariant Run(t0, steps) == Abs(sent).(pass := Some(Meta(left, true)))
        invariant published == old(published) + Elements(queued[..sent])
        decreases CHUNKS_PER_PASS - sent
      {
        var i := left[0];
        var s := if readable(i) then SendChunk(chunkOk(i), saved) else ChunkUnreadable;
        ghost var t := Abs(sent).(pass := Some(Meta(left, true)));
        RunMore(t0, steps, s);
        steps := steps + [s];
        if !readable(i) || !chunkOk(i) {
          if readable(i) && saved {
            next, metaSent := left, true;
          }
          assert Do(t, s) == Abs(sent).(pass := None);
          return left, sent, true, steps;
        }
        ElementsMore(queued, sent);
        published, due := published + {i}, due - {i};
        left, sent := left[1..], sent + 1;
        assert Do(t, s) == Abs(sent).(pass := Some(Meta(left, true)));
      }
      stopped := false;
    }

    // The meta message, once per transfer: whether the pass goes on after it.
    method AnnounceOnce(metaOk: bool, metaSaved: bool) returns (goesOn: bool, ghost steps: seq<Step>)
      requires place == Pending
      modifies this`metaSent
      ensures
        var t := old(Abs(0)).(pass := Some(Meta(next, old(metaSent))));
        && Possible(t, steps) && NoNack(steps)
        && Run(t, steps) == Abs(0).(pass := if goesOn then Some(Meta(next, true)) else None)
      ensures goesOn <==> old(metaSent) || (metaOk && metaSaved)
      ensures goesOn ==> metaSent
    {
      steps := [];
      goesOn := true;
      if !metaSent {
        var s := SendMeta(metaOk, metaSaved);
        RunMore(Abs(0).(pass := Some(Meta(next, false))), [], s);
        steps := [] + [s];
        metaSent := metaOk && metaSaved;
        goesOn := metaSent;
      }
    }

    // One pump call for this transfer. When everything works the first chunks queued are
    // published, and the transfer is done as soon as none is left.
    method Pump(metaOk: bool, chunkOk: nat -> bool, readable: nat -> bool, metaSaved: bool, saved: bool, moved: bool,
                ghost before: nat)
      returns (progressed: bool, sent: nat, ghost steps: seq<Step>)
      requires place == Pending
      modifies this`place, this`next, this`metaSent, this`published, this`due
      ensures Possible(old(Abs(before)), steps) && NoNack(steps)
      ensures Run(old(Abs(before)), steps) == Abs(sent)
      ensures sent <= CHUNKS_PER_PASS && (0 < sent ==> progressed)
      ensures
        && (old(metaSent) || (metaOk && metaSaved)) && saved && moved
        && (forall i :: chunkOk(i) && readable(i))
        ==>
        && sent == Min(CHUNKS_PER_PASS, |old(next)|)
        && published == old(published) + Elements(old(next)[..sent])
        && (if sent == |old(next)| then place == Done else place == Pending && next == old(next)[sent..])
    {
      hide Do, CanDo, Possible, Run;
      ghost var t0 := Abs(before);
      ghost var t1 := Abs(0).(pass := Some(Meta(next, metaSent)));
      BeginRun(t0);
      var announced := metaSent;
      var goesOn;
      sent := 0;
      goesOn, steps := AnnounceOnce(metaOk, metaSaved);
      RunJoin(t0, [Begin], steps);
      steps := [Begin] + steps;
      progressed := goesOn && !announced;
      if !goesOn {
        return;
      }
      var left, stopped;
      ghost var more;
      left, sent, stopped, more := SendChunks(next, chunkOk, readable, saved);
      RunJoin(t0, steps, more);
      steps := steps + more;
      progressed := progressed || 0 < sent;
      if stopped {
        return;
      }
      ghost var t := Abs(sent).(pass := Some(Meta(left, true)));
      EndRun(t, moved, saved);
      RunJoin(t0, steps, [EndPass(moved, saved)]);
      steps := steps + [EndPass(moved, saved)];
      if left == [] {
        place := if moved then Done else place;
      } else if saved {
        next, metaSent := left, true;
      }
    }

    // A transfer past its 24 hours is moved away.
    method GiveUp(moved: bool, ghost sent: nat)
      requires place == Pending
      modifies this`place
      ensures Abs(sent) == Do(old(Abs(sent)), Expire(moved))
    {
      place := if moved then Expired else place;
    }

    // A negative-ack takes a transfer that is done back first; then it is refused or
    // queues the chunks it lists, each once and in order.
    method OnNack(missing: seq<nat>, expired: bool, moved: bool, saved: bool, ghost sent: nat)
      returns (ok: bool, ghost steps: seq<Step>)
      modifies this`place, this`next, this`due
      ensures Possible(old(Abs(sent)), steps) && Run(old(Abs(sent)), steps) == Abs(sent)
      ensures ok <==>
        && (old(place) == Pending || (old(place) == Done && moved)) && !expired && saved
        && missing != [] && forall i :: 0 <= i < |missing| ==> missing[i] < total
      ensures ok ==> place == Pending && Ascending(next) && Elements(next) == Elements(missing)
      ensures !ok ==> next == old(next) && due == old(due)
    {
      ok, steps := false, [];
      ghost var t0 := Abs(sent);
      if place == Done {
        RunMore(t0, steps, Reactivate(moved));
        steps := steps + [Reactivate(moved)];
        place := if moved then Pending else place;
      }
      if place != Pending || expired || missing == [] {
        return;
      }
      for i := 0 to |missing|
        invariant forall j :: 0 <= j < i ==> missing[j] < total
      {
        if total <= missing[i] {
          return;
        }
      }
      var sorted := SortUnique(missing);
      SameElements(sorted, missing, total);
      RunMore(t0, steps, Nack(sorted, saved));
      steps := steps + [Nack(sorted, saved)];
      if saved {
        next, due, ok := sorted, due + Elements(sorted), true;
      }
    }
  }

  lemma SameElements(a: seq<nat>, b: seq<nat>, total: nat)
    requires Elements(a) == Elements(b) && b != []
    requires forall i :: 0 <= i < |b| ==> b[i] < total
    ensures a != [] && forall i :: 0 <= i < |a| ==> a[i] < total
  {
    assert b[0] in Elements(b);
    forall i | 0 <= i < |a| ensures a[i] < total {
      assert a[i] in Elements(a);
    }
  }
}
