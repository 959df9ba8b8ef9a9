/** Whole runs of the live ingress: any calls, in any order. */
module IngressRuns {
  import opened Basics
  import opened Dags
  import opened Ingress
  import opened Lace
  import opened Native
  import opened OrderedOutput
  import opened PrefixReuse
  import opened WeightProjection

  datatype Call =
    | Trusted(block: Block, adapterAccepts: bool)
    | Window(block: Block, adapterAccepts: bool)
    | Wire(msg: NativeMessage, genesis: bool, adapterAccepts: bool, stores: bool)
    | Rebond(bonds: Bonds)
    | Activate(hasher: Bytes -> Hash, state: ReputationState)
    | Restore(weights: Bonds)
    | Install(record: EpochRecord, committed: Hash)
    | Poll(wavelength: nat, now: nat)

  /**
   * What an observer sees of one call: the published list, and for a poll its answer with the state it was asked
   * in, and the state of the caches when every guard of prefix reuse passes.
   */
  datatype Event = Event(published: seq<Identity>, answer: Option<Answer>, attempt: Option<Attempt>)
  datatype Answer = Answer(output: OrderedFinalizedOutput, d: Dag, bonds: Bonds, wavelength: nat,
                           epoch: Option<EpochRecord>)
  datatype Attempt = Attempt(record: Reuse, fp: Fingerprint, d: Dag)

  function AttemptOf(call: Call, v: View, bonds: Bonds): Option<Attempt> {
    match call
    case Poll(wavelength, _) =>
      var fp := CurrentFingerprint(v, bonds, wavelength);
      if v.futureEpoch == None && v.reuse.Some? && MayExtend(v.reuse.value, fp, v.d)
      then Some(Attempt(v.reuse.value, fp, v.d)) else None
    case _ => None
  }

  /** Outside an epoch an answer is the full ordering of the lace it was asked about, inside one its verified replay. */
  ghost predicate Exact(o: Ordering, replay: EpochReplay, a: Answer) {
    match a.epoch
    case None => SuffixContract(o) ==> Orders(o, a.d, a.bonds, a.wavelength, a.output.blocks, a.output.anchor)
    case Some(record) => replay(record, a.d, a.bonds.Keys, record.checkpointHash) == Some(a.output)
  }

  ghost predicate ExactEvent(o: Ordering, replay: EpochReplay, e: Event) {
    e.answer.Some? ==> e.answer.value.output.blocks == e.published && Exact(o, replay, e.answer.value)
  }

  /** A poll outside an epoch that published what the record was made for, over the lace `saved`. */
  ghost predicate Publishes(e: Event, saved: Dag, r: Reuse) {
    match e.answer
    case None => false
    case Some(a) =>
      && a.d == saved && a.epoch == None && a.output.anchor == Some(r.anchor)
      && a.bonds == r.fingerprint.weights && a.wavelength == r.fingerprint.wavelength
  }

  /** Outside an epoch a call keeps the publication its record belongs to, or makes a new one. */
  ghost predicate KeepsSource(v: View, saved: Dag, e: Event, v': View, saved': Dag) {
    v'.futureEpoch == None ==>
      || (v.futureEpoch == None && saved' == saved && v'.published == v.published && SamePublication(v.reuse, v'.reuse))
      || (v'.reuse.Some? ==> Publishes(e, saved', v'.reuse.value))
  }

  method Perform(ingress: LiveIngress, call: Call) returns (ghost event: Event)
    requires ingress.Valid()
    modifies ingress, ingress.mirror, ingress.mirror.blocklace, ingress.shared
    ensures ingress.Valid() && old(ingress.Published()) <= ingress.Published()
    ensures event.published == ingress.Published() && ExactEvent(ingress.ordering, ingress.replay, event)
    ensures event.attempt == AttemptOf(call, old(ingress.Now()), old(ingress.bonds))
    ensures KeepsSource(old(ingress.Now()), old(ingress.saved), event, ingress.Now(), ingress.saved)
    ensures !call.Poll? && !call.Install? ==> ingress.shared.latest == old(ingress.shared.latest)
  {
    ghost var attempt := AttemptOf(call, ingress.Now(), ingress.bonds);
    ghost var answer := None;
    if call.Poll? {
      answer := Ask(ingress, call.wavelength, call.now, attempt);
    } else {
      Change(ingress, call);
    }
    event := Event(ingress.Published(), answer, attempt);
  }

  /** A poll, as its observer sees it. */
  method Ask(ingress: LiveIngress, wavelength: nat, now: nat, ghost attempt: Option<Attempt>)
    returns (ghost answer: Option<Answer>)
    requires ingress.Valid()
    modifies ingress, ingress.shared
    ensures ingress.Valid() && old(ingress.Published()) <= ingress.Published()
    ensures var event := Event(ingress.Published(), answer, attempt);
      && ExactEvent(ingress.ordering, ingress.replay, event)
      && KeepsSource(old(ingress.Now()), old(ingress.saved), event, ingress.Now(), ingress.saved)
  {
    answer := None;
    var r := ingress.LatestFinalizedOrderedOutput(wavelength, now);
    if r.Ok? {
      answer := Some(Answer(r.value, ingress.Dag(), ingress.bonds, wavelength, ingress.futureEpoch));
    }
  }

  /** Every other call leaves the publication and the lace of its record alone, or enters an epoch. */
  method Change(ingress: LiveIngress, call: Call)
    requires ingress.Valid() && !call.Poll?
    modifies ingress, ingress.mirror, ingress.mirror.blocklace, ingress.shared
    ensures ingress.Valid() && old(ingress.Published()) <= ingress.Published()
    ensures SamePublication(old(ingress.reuse), ingress.reuse) && ingress.saved == old(ingress.saved)
    ensures ingress.futureEpoch == None ==> old(ingress.futureEpoch) == None
    ensures ingress.futureEpoch == None || !call.Install? ==> ingress.shared.latest == old(ingress.shared.latest)
  {
    if call.Trusted? || call.Window? || call.Wire? { Deliver(ingress, call); } else { Govern(ingress, call); }
  }

  /** Blocks from outside. */
  method Deliver(ingress: LiveIngress, call: Call)
    requires ingress.Valid() && (call.Trusted? || call.Window? || call.Wire?)
    modifies ingress`native, ingress`accepted, ingress`reuse, ingress.mirror, ingress.mirror.blocklace
    ensures ingress.Valid() && SamePublication(old(ingress.reuse), ingress.reuse)
  {
    match call {
      case Trusted(block, adapterAccepts) =>
        var r, order := ingress.IngestTrustedBlock(block, adapterAccepts);
      case Window(block, adapterAccepts) =>
        var r, order := ingress.IngestTrustedWindowBlock(block, adapterAccepts);
      case Wire(msg, genesis, adapterAccepts, stores) =>
        var r, order := ingress.IngestNative(msg, genesis, adapterAccepts, stores);
    }
  }

  /** Bonds, weights and epochs. */
  method Govern(ingress: LiveIngress, call: Call)
    requires ingress.Valid() && (call.Rebond? || call.Activate? || call.Restore? || call.Install?)
    modifies ingress`bonds, ingress`reuse, ingress`futureEpoch, ingress.shared
    ensures ingress.Valid() && old(ingress.Published()) <= ingress.Published()
    ensures SamePublication(old(ingress.reuse), ingress.reuse)
    ensures ingress.futureEpoch == None ==> old(ingress.futureEpoch) == None
    ensures ingress.futureEpoch == None || !call.Install? ==> ingress.shared.latest == old(ingress.shared.latest)
  {
    match call {
      case Rebond(bonds) =>
        ingress.SetBonds(bonds);
      case Activate(hasher, state) =>
        var r := ingress.ApplyPorWeights(hasher, state);
      case Restore(weights) =>
        var r := ingress.RestoreActivatedPorWeights(weights);
      case Install(record, committed) =>
        var r := ingress.InstallFutureEpoch(record, committed);
    }
  }

  // ---- traces ----

  /**
   * Some earlier poll published what is published now, with these weights and this wavelength, and since its lace
   * nothing up to the end of its anchor's wave has changed.
   */
  ghost predicate Backed(events: seq<Event>, a: Attempt) {
    exists i :: 0 <= i < |events| && Backs(events[i], a) && events[i].published == events[|events| - 1].published
  }

  ghost predicate Backs(e: Event, a: Attempt) {
    e.answer.Some? && Publishes(e, e.answer.value.d, a.record) && Unchanged(e.answer.value.d, a.d, a.record, a.fp)
  }

  /** The publication that the present record belongs to. */
  ghost predicate HasSource(events: seq<Event>, v: View, saved: Dag, published: seq<Identity>) {
    v.futureEpoch == None && v.reuse.Some? ==>
      exists i :: 0 <= i < |events| && Publishes(events[i], saved, v.reuse.value) && events[i].published == published
  }

  lemma SourceKept(events: seq<Event>, v: View, saved: Dag, published: seq<Identity>, e: Event, v': View, saved': Dag,
                   published': seq<Identity>)
    requires HasSource(events, v, saved, published) && KeepsSource(v, saved, e, v', saved')
    requires e.published == published' && (v'.published == v.published ==> published' == published)
    ensures HasSource(events + [e], v', saved', published')
  {
    if v'.futureEpoch == None && v'.reuse.Some? {
      var more := events + [e];
      if Publishes(e, saved', v'.reuse.value) {
        assert more[|events|] == e;
      } else {
        var i :| 0 <= i < |events| && Publishes(events[i], saved, v.reuse.value) && events[i].published == published;
        assert more[i] == events[i] && Publishes(more[i], saved', v'.reuse.value);
      }
    }
  }

  /** The guards pass only over the lace of the publication that the record belongs to. */
  lemma AttemptBacked(o: Ordering, events: seq<Event>, call: Call, v: View, saved: Dag,
                      accepted: map<Bytes, NativeMessage>, bonds: Bonds, published: seq<Identity>)
    requires StateOk(o, v, saved, accepted) && HasSource(events, v, saved, published)
    requires events != [] ==> events[|events| - 1].published == published
    ensures var a := AttemptOf(call, v, bonds); a.Some? ==> Backed(events, a.value)
  {
    var a := AttemptOf(call, v, bonds);
    if a.Some? {
      GuardsKeepShallow(o, v, saved, accepted, a.value.fp);
      var i :| 0 <= i < |events| && Publishes(events[i], saved, v.reuse.value) && events[i].published == published;
      assert Backs(events[i], a.value);
    }
  }

  /**
   * Every published list is a prefix of every later one, every answer is exact, and whenever the guards pass at a
   * poll the blocks they vouch for are those of the poll that published the present list.
   */
  ghost predicate Trace(o: Ordering, replay: EpochReplay, events: seq<Event>, published: seq<Identity>) {
    && (forall i, j :: 0 <= i <= j < |events| ==> events[i].published <= events[j].published)
    && (events != [] ==> events[|events| - 1].published == published)
    && (forall i :: 0 <= i < |events| ==> ExactEvent(o, replay, events[i]))
    && (forall i :: 0 <= i < |events| ==> BackedAt(events, i))
  }

  ghost predicate BackedAt(events: seq<Event>, i: int)
    requires 0 <= i < |events|
  {
    events[i].attempt.Some? ==> Backed(events[..i], events[i].attempt.value)
  }

  lemma TraceGrows(o: Ordering, replay: EpochReplay, events: seq<Event>, published: seq<Identity>, event: Event)
    requires Trace(o, replay, events, published) && published <= event.published && ExactEvent(o, replay, event)
    requires event.attempt.Some? ==> Backed(events, event.attempt.value)
    ensures Trace(o, replay, events + [event], event.published)
  {
    var more := events + [event];
    forall i | 0 <= i < |more| ensures BackedAt(more, i) {
      assert more[..i] == events[..i];
      if i < |events| { assert BackedAt(events, i); } else { assert events[..i] == events; }
    }
  }

  /** Whatever is called, in whatever order, the events form such a trace. */
  method RunCalls(ordering: Ordering, mapper: Mapper, replay: EpochReplay, bonds: Bonds, calls: seq<Call>)
    returns (ingress: LiveIngress, ghost events: seq<Event>)
    ensures ingress.Valid() && |events| == |calls| && Trace(ordering, replay, events, ingress.Published())
  {
    ingress := new LiveIngress(ordering, mapper, replay, bonds);
    events := [];
    for n := 0 to |calls|
      invariant fresh(ingress) && fresh(ingress.mirror) && fresh(ingress.mirror.blocklace) && fresh(ingress.shared)
      invariant ingress.Valid() && ingress.ordering == ordering && ingress.replay == replay
      invariant |events| == n && Trace(ordering, replay, events, ingress.Published())
      invariant HasSource(events, ingress.Now(), ingress.saved, ingress.Published())
    {
      ghost var v, saved, published := ingress.Now(), ingress.saved, ingress.Published();
      AttemptBacked(ordering, events, calls[n], v, saved, ingress.accepted, ingress.bonds, published);
      ghost var event := Perform(ingress, calls[n]);
      TraceGrows(ordering, replay, events, published, event);
      SourceKept(events, v, saved, published, event, ingress.Now(), ingress.saved, ingress.Published());
      events := events + [event];
    }
  }
}
