/** The builder itself: the names whose descriptions are still being written, the definitions
    hoisted so far, and the guarded description that keeps a cyclic type graph a finite document. */
module HoistingBuilder {
  import opened Wrappers
  import opened HoistingModel
  import opened HoistingMeaning
  import opened HoistingRoutes
  import opened HoistingRefusals

  /** A document standing on its own. */
  datatype Document = Document(defs: map<string, Doc>, root: Doc)

  // ----- recursion that keeps its filling -----

  /** Every name `ty` writes is ranked below `at`, or at it and handed the `parameters` parameters of
      the body it is written in, each in its own place. */
  ghost predicate InPlace(env: Env, rank: map<string, nat>, at: nat, parameters: nat, ty: Ty) {
    match ty
    case Node(_, members) => forall i :: 0 <= i < |members| ==> InPlace(env, rank, at, parameters, members[i])
    case Named(name, args) =>
      && name in env.declared && name in rank
      && (rank[name] < at || (rank[name] == at && HandedOn(env, name, parameters, args)))
      && forall i :: 0 <= i < |args| ==> InPlace(env, rank, at, parameters, args[i])
    case Param(_) => true
    case Quoted(_) => true
  }

  ghost predicate HandedOn(env: Env, name: string, parameters: nat, args: seq<Ty>) {
    && name in env.declared && env.declared[name].parameters == parameters <= |args|
    && forall i :: 0 <= i < parameters ==> args[i] == Param(i)
  }

  ghost predicate Ranked(env: Env, rank: map<string, nat>, limit: nat) {
    forall name :: name in env.declared ==>
      && name in rank && rank[name] < limit
      && InPlace(env, rank, rank[name], env.declared[name].parameters, env.declared[name].body)
  }

  /** Names can be ranked so that a body names only lower ranks, and its own rank at its own
      parameters: what recursion that never changes its filling looks like. */
  ghost predicate RecursesInPlace(env: Env) {
    exists rank: map<string, nat>, limit: nat :: Ranked(env, rank, limit)
  }

  /** Every frame ranked no higher than `at` is ranked `at` and filled with `filling`. */
  ghost predicate Steady(rank: map<string, nat>, frames: seq<Frame>, at: nat, filling: seq<Doc>) {
    forall frame :: frame in frames && frame.name in rank && rank[frame.name] <= at ==>
      rank[frame.name] == at && frame.filling == filling
  }

  lemma {:induction false} BelowLimit(env: Env, rank: map<string, nat>, limit: nat, parameters: nat, ty: Ty)
    requires Ranked(env, rank, limit) && Plain(env, ty)
    ensures InPlace(env, rank, limit, parameters, ty)
  {
    match ty
    case Node(_, members) =>
      forall i | 0 <= i < |members| ensures InPlace(env, rank, limit, parameters, members[i]) {
        BelowLimit(env, rank, limit, parameters, members[i]);
      }
    case Named(_, args) =>
      forall i | 0 <= i < |args| ensures InPlace(env, rank, limit, parameters, args[i]) {
        BelowLimit(env, rank, limit, parameters, args[i]);
      }
    case Param(_) =>
  }

  /** Declarations that take no parameter recurse in place, however they name one another. */
  lemma ParameterlessRecursesInPlace(env: Env)
    requires WellFormed(env) && forall name :: name in env.declared ==> env.declared[name].parameters == 0
    ensures RecursesInPlace(env)
  {
    var rank: map<string, nat> := map name | name in env.declared :: 0;
    forall name | name in env.declared ensures InPlace(env, rank, 0, 0, env.declared[name].body) {
      PlainIsInPlace(env, rank, env.declared[name].body);
    }
    assert Ranked(env, rank, 1);
  }

  lemma {:induction false} PlainIsInPlace(env: Env, rank: map<string, nat>, ty: Ty)
    requires Plain(env, ty)
    requires forall name :: name in env.declared ==>
      env.declared[name].parameters == 0 && name in rank && rank[name] == 0
    ensures InPlace(env, rank, 0, 0, ty)
  {
    match ty
    case Node(_, members) =>
      forall i | 0 <= i < |members| ensures InPlace(env, rank, 0, 0,
        members[i]) { PlainIsInPlace(env, rank, members[i]); }
    case Named(_, args) =>
      forall i | 0 <= i < |args| ensures InPlace(env, rank, 0, 0, args[i]) { PlainIsInPlace(env, rank, args[i]); }
    case Param(_) =>
  }

  /** What every step keeps: a reserved entry belongs to a name in flight, and a filled one is a body
      of the name and filling its key stands for. */
  ghost predicate Sound(env: Env, frames: seq<Frame>, hoisted: map<string, Option<Doc>>, fillings: set<seq<Doc>>) {
    && (forall frame :: frame in frames ==> IsFrame(env, frame))
    && (forall key :: key in hoisted && hoisted[key].None? ==> Reserved(env, frames, key))
    && (forall key {:trigger Defines(env, Told(hoisted.Keys, fillings), key, hoisted[key].value)} ::
         key in hoisted && hoisted[key].Some? ==> Defines(env, Told(hoisted.Keys, fillings), key, hoisted[key].value))
  }

  ghost predicate Reserved(env: Env, frames: seq<Frame>, key: string) {
    exists frame :: frame in frames && key == Key(env, frame.name, frame.filling)
  }

  /** `doc` stands for `name` at `filling`: a reference to its definition, or its body in line. */
  ghost predicate StandsFor(env: Env, told: Told, nested: nat, doc: Doc, name: string, filling: seq<Doc>) {
    && name in env.declared
    && (RefersTo(env, told, doc, name, filling)
        || (nested > 0 && Describes(env, told, nested - 1, doc, Instance(env, name, filling))))
  }

  ghost predicate AllResolved(docs: seq<Doc>, keys: set<string>) {
    forall i :: 0 <= i < |docs| ==> Resolved(docs[i], keys)
  }

  lemma OneMoreDescribed(env: Env, told: Told, nested: nat, docs: seq<Doc>, tys: seq<Ty>, doc: Doc)
    requires |docs| < |tys| && DescribesAll(env, told, nested, docs, tys[..|docs|])
    requires Describes(env, told, nested, doc, tys[|docs|])
    ensures DescribesAll(env, told, nested, docs + [doc], tys[..|docs| + 1])
  {
  }

  lemma AllResolvedInMore(docs: seq<Doc>, keys: set<string>, more: set<string>)
    requires AllResolved(docs, keys) && keys <= more
    ensures AllResolved(docs, more)
  {
    forall i | 0 <= i < |docs| ensures Resolved(docs[i], more) { ResolvedInMore(docs[i], keys, more); }
  }

  /** Re-entered, a frame's definition is reserved where none is written yet. */
  function WithReserved(hoisted: map<string, Option<Doc>>, key: string): map<string, Option<Doc>> {
    if key in hoisted then hoisted else hoisted[key := None]
  }

  lemma SoundWhenReserved(env: Env, frames: seq<Frame>, hoisted: map<string, Option<Doc>>, fillings: set<seq<Doc>>,
      frame: Frame)
    requires Sound(env, frames, hoisted, fillings) && frame in frames
    ensures Sound(env, frames, WithReserved(hoisted, Key(env, frame.name, frame.filling)), fillings + {frame.filling})
  {
    var key := Key(env, frame.name, frame.filling);
    var more, told := WithReserved(hoisted, key), Told(hoisted.Keys, fillings);
    var grown := Told(more.Keys, fillings + {frame.filling});
    assert Reserved(env, frames, key);
    forall k | k in more && more[k].Some? ensures Defines(env, grown, k, more[k].value) {
      assert Defines(env, told, k, hoisted[k].value);
      DefinesInMore(env, told, grown, k, hoisted[k].value);
    }
  }

  lemma SoundWhenPushed(env: Env, frames: seq<Frame>, hoisted: map<string, Option<Doc>>, fillings: set<seq<Doc>>,
      frame: Frame)
    requires Sound(env, frames, hoisted, fillings) && IsFrame(env, frame)
    ensures Sound(env, frames + [frame], hoisted, fillings)
  {
    forall key | key in hoisted && hoisted[key].None? ensures Reserved(env, frames + [frame], key) {
      var held :| held in frames && key == Key(env, held.name, held.filling);
      assert held in frames + [frame];
    }
  }

  /** A definition is filled where one is reserved. */
  function WithFilled(hoisted: map<string, Option<Doc>>, key: string, doc: Doc): map<string, Option<Doc>> {
    if key in hoisted then hoisted[key := Some(doc)] else hoisted
  }

  function WithUsed(fillings: set<seq<Doc>>, hoisted: map<string, Option<Doc>>, key: string,
      filling: seq<Doc>): set<seq<Doc>> {
    if key in hoisted then fillings + {filling} else fillings
  }

  /** With its body written, a frame's name can be popped: what it left reserved is its own key, which
      it fills. */
  lemma SoundWhenPopped(env: Env, frames: seq<Frame>, hoisted: map<string, Option<Doc>>, fillings: set<seq<Doc>>,
      frame: Frame,
      nested: nat, doc: Doc)
    requires Sound(env, frames + [frame], hoisted, fillings) && IsFrame(env, frame)
      && AllResolved(frame.filling, hoisted.Keys)
    requires Describes(env, Told(hoisted.Keys, fillings), nested, doc, Instance(env, frame.name, frame.filling))
    ensures var key := Key(env, frame.name, frame.filling);
      Sound(env, frames, WithFilled(hoisted, key, doc), WithUsed(fillings, hoisted, key, frame.filling))
  {
    var key := Key(env, frame.name, frame.filling);
    var filled, used := WithFilled(hoisted, key, doc), WithUsed(fillings, hoisted, key, frame.filling);
    var told, grown := Told(hoisted.Keys, fillings), Told(filled.Keys, used);
    assert filled.Keys == hoisted.Keys;
    forall held | held in frames ensures IsFrame(env, held) {
      assert held in frames + [frame];
    }
    forall k | k in filled && filled[k].None? ensures Reserved(env, frames, k) {
      assert Reserved(env, frames + [frame], k);
      var held :| held in frames + [frame] && k == Key(env, held.name, held.filling);
      assert held in frames;
    }
    forall k | k in filled && filled[k].Some? ensures Defines(env, grown, k, filled[k].value) {
      if k == key {
        DescribesInMore(env, told, grown, nested, doc, Instance(env, frame.name, frame.filling));
        assert DefinesAt(env, grown, key, doc, frame.name, frame.filling, nested);
      } else {
        assert Defines(env, told, k, hoisted[k].value);
        DefinesInMore(env, told, grown, k, hoisted[k].value);
      }
    }
  }

  // ----- names in flight -----

  /** A name described with its arguments is described as the type it is written as. */
  lemma NamedIsDescribed(env: Env, told: Told, nested: nat, doc: Doc, name: string, docs: seq<Doc>, args: seq<Ty>)
    requires name in env.declared && DescribesAll(env, told, nested, docs, args)
    requires StandsFor(env, told, nested, doc, name, Bound(env.declared[name].parameters, docs))
    ensures Describes(env, told, nested, doc, Named(name, args))
  {
    assert DescribesAt(env, told, nested, doc, Named(name, args), Bound(env.declared[name].parameters, docs));
  }

  /** A name written in place is entered at the filling its frames have, or is ranked below them. */
  lemma StaysSteady(env: Env, rank: map<string, nat>, frames: seq<Frame>, at: nat, filling: seq<Doc>,
      name: string, args: seq<Ty>, docs: seq<Doc>, told: Told, nested: nat)
    requires name in env.declared && DescribesAll(env, told, nested, docs, FillAll(args, Quotes(filling)))
    ensures Steady(rank, frames, at, filling) && InPlace(env, rank, at, |filling|, Named(name, args)) ==>
      Steady(rank, frames, rank[name], Bound(env.declared[name].parameters, docs))
  {
    if Steady(rank, frames, at, filling) && InPlace(env, rank, at, |filling|, Named(name, args)) && rank[name] == at {
      forall i | 0 <= i < |filling| ensures docs[i] == filling[i] {
        assert FillAll(args, Quotes(filling))[i] == Quoted(filling[i]);
      }
      assert Bound(env.declared[name].parameters, docs) == filling;
    }
  }

  /** What every step of a run keeps: its entries are sound, its frames are of names apart and a route
      from the type it describes, and so is the way to every filling a definition is named by; and each
      entry is of a name and filling some way comes back to. */
  ghost predicate Running(env: Env, root: Ty, frames: seq<Frame>, hoisted: map<string, Option<Doc>>,
      fillings: set<seq<Doc>>) {
    Sound(env, frames, hoisted, fillings) && Routed(env, root, frames, Told(hoisted.Keys, fillings))
  }

  ghost predicate Routed(env: Env, root: Ty, frames: seq<Frame>, told: Told) {
    && Distinct(frames) && Route(env, told, root, frames)
    && AllReached(env, told, root, told.fillings) && EachReturns(env, told, root, told.keys)
  }

  lemma RunningWhenReserved(env: Env, root: Ty, frames: seq<Frame>, hoisted: map<string, Option<Doc>>,
      fillings: set<seq<Doc>>,
      frame: Frame)
    requires Running(env, root, frames, hoisted, fillings) && frame in frames
    requires Route(env, Told(hoisted.Keys, fillings), root, frames + [frame])
    ensures Running(env, root, frames, WithReserved(hoisted, Key(env, frame.name, frame.filling)), fillings
      + {frame.filling})
  {
    var key := Key(env, frame.name, frame.filling);
    SoundWhenReserved(env, frames, hoisted, fillings, frame);
    UsedIsReached(env, root, frames, hoisted.Keys, WithReserved(hoisted, key).Keys, fillings, frame);
    ReservedReturns(env, root, frames, hoisted.Keys, WithReserved(hoisted, key).Keys, fillings, frame);
  }

  lemma ReservedReturns(env: Env, root: Ty, frames: seq<Frame>, keys: set<string>, more: set<string>,
      fillings: set<seq<Doc>>, frame: Frame)
    requires Distinct(frames) && frame in frames && Route(env, Told(keys, fillings), root, frames + [frame])
    requires EachReturns(env, Told(keys, fillings), root, keys)
    requires keys <= more <= keys + {Key(env, frame.name, frame.filling)}
    ensures EachReturns(env, Told(more, fillings + {frame.filling}), root, more)
  {
    var told := Told(keys, fillings);
    assert Returns(env, told, root, frame);
    assert KeyReturns(env, told, root, Key(env, frame.name, frame.filling));
    EachReturnsInMore(env, told, Told(more, fillings + {frame.filling}), root, more);
  }

  /** The frame a route comes to next makes its filling one that is reached. */
  lemma UsedIsReached(env: Env, root: Ty, frames: seq<Frame>, keys: set<string>, more: set<string>,
      fillings: set<seq<Doc>>, frame: Frame)
    requires keys <= more && AllReached(env, Told(keys, fillings), root, fillings)
    requires Route(env, Told(keys, fillings), root, frames) && Route(env, Told(keys, fillings), root, frames + [frame])
    ensures var told := Told(more, fillings + {frame.filling});
      Route(env, told, root, frames) && AllReached(env, told, root, told.fillings)
  {
    var told, grown := Told(keys, fillings), Told(more, fillings + {frame.filling});
    RouteInMore(env, told, grown, root, frames);
    RouteInMore(env, told, grown, root, frames + [frame]);
    AllReachedInMore(env, told, grown, root, fillings);
    assert (frames + [frame])[|frames + [frame]| - 1] == frame;
    assert Reached(env, grown, root, frame.filling);
  }

  lemma RunningWhenPushed(env: Env, root: Ty, frames: seq<Frame>, hoisted: map<string, Option<Doc>>,
      fillings: set<seq<Doc>>,
      frame: Frame)
    requires Running(env, root, frames, hoisted, fillings) && IsFrame(env, frame)
    requires InFlightAt(frames, frame.name).None?
    requires Route(env, Told(hoisted.Keys, fillings), root, frames + [frame])
    ensures Running(env, root, frames + [frame], hoisted, fillings)
  {
    SoundWhenPushed(env, frames, hoisted, fillings, frame);
  }

  lemma RunningWhenPopped(env: Env, root: Ty, frames: seq<Frame>, hoisted: map<string, Option<Doc>>,
      fillings: set<seq<Doc>>,
      frame: Frame, nested: nat, doc: Doc)
    requires Running(env, root, frames + [frame], hoisted, fillings) && IsFrame(env, frame)
      && AllResolved(frame.filling, hoisted.Keys)
    requires Describes(env, Told(hoisted.Keys, fillings), nested, doc, Instance(env, frame.name, frame.filling))
    ensures var key := Key(env, frame.name, frame.filling);
      Running(env, root, frames, WithFilled(hoisted, key, doc), WithUsed(fillings, hoisted, key, frame.filling))
  {
    var key := Key(env, frame.name, frame.filling);
    SoundWhenPopped(env, frames, hoisted, fillings, frame, nested, doc);
    RouteBefore(env, Told(hoisted.Keys, fillings), root, frames, frame);
    DistinctBefore(frames, frame);
    assert WithFilled(hoisted, key, doc).Keys == hoisted.Keys;
    if key in hoisted {
      UsedIsReached(env, root, frames, hoisted.Keys, hoisted.Keys, fillings, frame);
      EachReturnsInMore(env, Told(hoisted.Keys, fillings), Told(hoisted.Keys, fillings + {frame.filling}), root,
        hoisted.Keys);
    }
  }

  lemma DistinctBefore(frames: seq<Frame>, frame: Frame)
    requires Distinct(frames + [frame])
    ensures Distinct(frames)
  {
    forall i, k | 0 <= i < k < |frames| ensures frames[i].name != frames[k].name {
      assert (frames + [frame])[i] == frames[i] && (frames + [frame])[k] == frames[k];
    }
  }

  lemma {:induction false} RouteBefore(env: Env, told: Told, ty: Ty, frames: seq<Frame>, frame: Frame)
    requires Route(env, told, ty, frames + [frame])
    ensures Route(env, told, ty, frames)
    decreases |frames|
  {
    if frames != [] {
      assert (frames + [frame])[0] == frames[0] && (frames + [frame])[1..] == frames[1..] + [frame];
      RouteBefore(env, told, Instance(env, frames[0].name, frames[0].filling), frames[1..], frame);
    }
  }

  /** Of the first `n` types written, each that hands names no names is settled once filled. */
  ghost predicate AreSettled(env: Env, tys: seq<Ty>, filled: seq<Ty>, frames: seq<Frame>, keys: set<string>, n: nat)
    requires n <= |tys| == |filled|
  {
    AllNamelessArguments(env) ==>
      forall i :: 0 <= i < n && NamelessArguments(tys[i]) ==> IsSettled(env, filled[i], frames, keys)
  }

  lemma OneMoreSettled(env: Env, tys: seq<Ty>, filled: seq<Ty>, frames: seq<Frame>, keys: set<string>,
      more: set<string>, n: nat)
    requires n < |tys| == |filled| && AreSettled(env, tys, filled, frames, keys, n) && keys <= more
    requires AllNamelessArguments(env) && NamelessArguments(tys[n]) ==> IsSettled(env, filled[n], frames, more)
    ensures AreSettled(env, tys, filled, frames, more, n + 1)
  {
    if AllNamelessArguments(env) {
      forall i | 0 <= i < n && NamelessArguments(tys[i]) ensures IsSettled(env, filled[i], frames, more) {
        SettledInMore(env, filled[i], frames, keys, more);
      }
    }
  }

  /** A name is answered by a reference to its definition where it has one, and by its body otherwise. */
  ghost predicate IsAnswered(env: Env, frame: Frame, doc: Doc, keys: set<string>) {
    doc == Reference(Key(env, frame.name, frame.filling)) <==> Key(env, frame.name, frame.filling) in keys
  }

  /** Popped, a name is answered by a reference where it has a definition, and by its body otherwise. */
  lemma PoppedIsAnswered(env: Env, frame: Frame, nested: nat, doc: Doc, told: Told)
    requires IsFrame(env, frame) && Describes(env, told, nested, doc, Instance(env, frame.name, frame.filling))
    ensures var key := Key(env, frame.name, frame.filling);
      var answer := if key in told.keys then Reference(key) else doc;
      var used := if key in told.keys then told.fillings + {frame.filling} else told.fillings;
      StandsFor(env, Told(told.keys, used), nested + 1, answer, frame.name, frame.filling)
        && IsAnswered(env, frame, answer, told.keys)
  {
    DescribedIsResolved(env, told, nested, doc, Instance(env, frame.name, frame.filling));
  }

  class Builder {
    const env: Env
    /** The type the document is of. */
    ghost const root: Ty
    /** How the names rank, where they do. */
    ghost const rank: map<string, nat>
    ghost const limit: nat
    var inFlight: seq<Frame>
    var hoisted: map<string, Option<Doc>>
    /** The fillings a definition was referred to or written at. */
    ghost var fillings: set<seq<Doc>>

    constructor (env: Env, ghost root: Ty, ghost rank: map<string, nat>, ghost limit: nat)
      ensures this.env == env && this.root == root && this.rank == rank && this.limit == limit
      ensures inFlight == [] && hoisted == map[] && fillings == {}
    {
      this.env := env;
      this.root := root;
      this.rank := rank;
      this.limit := limit;
      inFlight := [];
      hoisted := map[];
      fillings := {};
    }

    /** How many names can still be put in flight. */
    ghost function Remaining(): nat
      reads this
    {
      |NotInFlight(env, inFlight)|
    }

    ghost function Now(): Told
      reads this
    {
      Told(hoisted.Keys, fillings)
    }

    ghost predicate IsRunning()
      reads this
    {
      WellFormed(env) && Running(env, root, inFlight, hoisted, fillings)
    }

    /** A step leaves the names in flight as it found them, and forgets nothing it was told. */
    ghost predicate Kept(before: seq<Frame>, told: Told)
      reads this
    {
      inFlight == before && IsRunning() && Among(told, Now())
    }

    /** What the type being written stands in: the body of the name last put in flight, or the root. */
    ghost function Around(): Ty
      requires IsRunning()
      reads this
    {
      Last(env, root, inFlight)
    }

    /** The description of `name`, guarded against re-entering a name still being written. */
    method Within(name: string, arguments: seq<Doc>) returns (r: Result<Doc, Refusal>)
      requires IsRunning() && name in env.declared && AllResolved(arguments, hoisted.Keys)
      requires Route(env, Now(), root, inFlight + [Frame(name, Bound(env.declared[name].parameters, arguments))])
      modifies this
      ensures (Ranked(env, rank, limit)
               && Steady(rank, old(inFlight), rank[name], Bound(env.declared[name].parameters, arguments))) ==> r.Ok?
      ensures r.Err? ==> Refused(env, root, inFlight, Now(), r.error)
      ensures r.Ok? ==> Kept(old(inFlight), old(Now()))
      ensures r.Ok? ==> StandsFor(env, Now(), old(Remaining()), r.value, name, Bound(env.declared[name].parameters,
        arguments))
      ensures r.Ok? ==> IsAnswered(env, Frame(name, Bound(env.declared[name].parameters, arguments)), r.value,
        hoisted.Keys)
      ensures r.Ok? && InFlightAt(old(inFlight), name).Some? ==> r.value.Reference?
      ensures r.Ok? && AllNamelessArguments(env) ==>
        IsSettledAt(env, Frame(name, Bound(env.declared[name].parameters, arguments)), old(inFlight), hoisted.Keys)
      decreases Remaining(), 0, 2
    {
      var frame := Frame(name, Bound(env.declared[name].parameters, arguments));
      var found := InFlightAt(inFlight, name);
      if found.Some? {
        if found.value != frame.filling {
          return Err(Refilled(name, found.value, frame.filling));
        }
        RunningWhenReserved(env, root, inFlight, hoisted, fillings, frame);
        r := Reentered(frame);
      } else {
        r := Described(frame);
      }
    }

    /** A reference to the definition of a name in flight, reserved where none is written yet. */
    method Reentered(frame: Frame) returns (r: Result<Doc, Refusal>)
      modifies this`hoisted, this`fillings
      ensures hoisted == WithReserved(old(hoisted), Key(env, frame.name, frame.filling))
      ensures fillings == old(fillings) + {frame.filling}
      ensures r == Ok(Reference(Key(env, frame.name, frame.filling)))
    {
      var key := Key(env, frame.name, frame.filling);
      fillings := fillings + {frame.filling};
      if key !in hoisted {
        hoisted := hoisted[key := None];
      }
      return Ok(Reference(key));
    }

    /** The body of a name put in flight while it is written, or a reference where one was made to it. */
    method Described(frame: Frame) returns (r: Result<Doc, Refusal>)
      requires IsRunning() && IsFrame(env, frame) && AllResolved(frame.filling, hoisted.Keys)
      requires InFlightAt(inFlight, frame.name).None? && Route(env, Now(), root, inFlight + [frame])
      modifies this
      ensures (Ranked(env, rank, limit) && Steady(rank, old(inFlight), rank[frame.name], frame.filling)) ==> r.Ok?
      ensures r.Err? ==> Refused(env, root, inFlight, Now(), r.error)
      ensures r.Ok? ==> Kept(old(inFlight), old(Now()))
      ensures r.Ok? ==> StandsFor(env, Now(), old(Remaining()), r.value, frame.name, frame.filling)
      ensures r.Ok? ==> IsAnswered(env, frame, r.value, hoisted.Keys)
      ensures r.Ok? && AllNamelessArguments(env) ==> IsSettledAt(env, frame, old(inFlight), hoisted.Keys)
      decreases Remaining(), 0, 1
    {
      ghost var outer := inFlight;
      ghost var nested := |NotInFlight(env, inFlight + [frame])|;
      FewerNotInFlight(env, inFlight, frame);
      var written := Entered(frame);
      if written.Err? {
        return written;
      }
      RunningWhenPopped(env, root, outer, hoisted, fillings, frame, nested, written.value);
      PoppedIsAnswered(env, frame, nested, written.value, Now());
      r := Popped(outer, frame, written.value);
    }

    /** What the body of a name writes once the name is in flight. */
    method Entered(frame: Frame) returns (r: Result<Doc, Refusal>)
      requires IsRunning() && IsFrame(env, frame) && AllResolved(frame.filling, hoisted.Keys)
      requires InFlightAt(inFlight, frame.name).None? && Route(env, Now(), root, inFlight + [frame])
      modifies this
      ensures (Ranked(env, rank, limit) && Steady(rank, old(inFlight), rank[frame.name], frame.filling)) ==> r.Ok?
      ensures r.Err? ==> Refused(env, root, inFlight, Now(), r.error)
      ensures r.Ok? ==> Kept(old(inFlight) + [frame], old(Now())) && AllResolved(frame.filling, hoisted.Keys)
      ensures r.Ok? ==> Describes(env, Now(), |NotInFlight(env, old(inFlight) + [frame])|, r.value,
        Instance(env, frame.name, frame.filling))
      ensures r.Ok? && AllNamelessArguments(env) ==> IsSettledAt(env, frame, old(inFlight), hoisted.Keys)
      decreases Remaining(), 0, 0
    {
      FewerNotInFlight(env, inFlight, frame);
      RunningWhenPushed(env, root, inFlight, hoisted, fillings, frame);
      inFlight := inFlight + [frame];
      r := Write(env.declared[frame.name].body, frame.filling, if frame.name in rank then rank[frame.name] else 0);
      if r.Ok? {
        AllResolvedInMore(frame.filling, old(hoisted.Keys), hoisted.Keys);
      }
    }

    /** The frame's name out of flight again, its definition filled with `doc` where one is reserved. */
    method Popped(ghost outer: seq<Frame>, frame: Frame, doc: Doc) returns (r: Result<Doc, Refusal>)
      requires inFlight == outer + [frame]
      modifies this
      ensures inFlight == outer
      ensures hoisted == WithFilled(old(hoisted), Key(env, frame.name, frame.filling), doc)
      ensures fillings
        == WithUsed(old(fillings), old(hoisted), Key(env, frame.name, frame.filling), frame.filling)
      ensures var key := Key(env, frame.name, frame.filling);
        r == Ok(if key in old(hoisted) then Reference(key) else doc)
    {
      var key := Key(env, frame.name, frame.filling);
      inFlight := inFlight[..|inFlight| - 1];
      if key in hoisted {
        hoisted := hoisted[key := Some(doc)];
        fillings := fillings + {frame.filling};
        return Ok(Reference(key));
      }
      return Ok(doc);
    }

    /** What `body` writes with its parameters bound to `filling`. */
    method Write(body: Ty, filling: seq<Doc>, ghost at: nat) returns (r: Result<Doc, Refusal>)
      requires IsRunning() && Plain(env, body) && AllResolved(filling, hoisted.Keys)
      requires StandsIn(Fill(body, Quotes(filling)), Around())
      modifies this
      ensures (Ranked(env, rank, limit) && Steady(rank, old(inFlight), at, filling)
               && InPlace(env, rank, at, |filling|, body)) ==> r.Ok?
      ensures r.Err? ==> Refused(env, root, inFlight, Now(), r.error)
      ensures r.Ok? ==> Kept(old(inFlight), old(Now()))
      ensures r.Ok? ==> Describes(env, Now(), old(Remaining()), r.value, Fill(body, Quotes(filling)))
      ensures r.Ok? && AllNamelessArguments(env) && NamelessArguments(body)
        ==> IsSettled(env, Fill(body, Quotes(filling)), old(inFlight), hoisted.Keys)
      decreases Remaining(), 1, body, 1
    {
      match body
      case Node(keywords, members) =>
        var docs := WriteAll(body, members, filling, at);
        if docs.Err? {
          return Err(docs.error);
        }
        return Ok(Written(keywords, docs.value));
      case Param(at) =>
        return Ok(if at < |filling| then filling[at] else PERMISSIVE);
      case Named(name, args) =>
        var docs := WriteAll(body, args, filling, at);
        if docs.Err? {
          return Err(docs.error);
        }
        ghost var told := Now();
        ghost var filled := FillAll(args, Quotes(filling));
        forall i | 0 <= i < |docs.value| ensures Resolved(docs.value[i], told.keys) {
          DescribedIsResolved(env, told, Remaining(), docs.value[i], filled[i]);
        }
        StaysSteady(env, rank, inFlight, at, filling, name, args, docs.value, told, Remaining());
        NamedIsReached(env, told, root, inFlight, Remaining(), Named(name, filled), docs.value);
        if NamelessArguments(body) {
          NamelessWhenFilled(body, filling);
          FrameIsOne(env, told, Remaining(), docs.value, name, filled);
        }
        r := Within(name, docs.value);
        if r.Ok? {
          DescribesAllInMore(env, told, Now(), Remaining(), docs.value, filled);
          NamedIsDescribed(env, Now(), Remaining(), r.value, name, docs.value, filled);
        }
    }

    method WriteAll(ghost parent: Ty, tys: seq<Ty>, filling: seq<Doc>, ghost at: nat) returns (r: Result<seq<Doc>,
        Refusal>)
      requires IsRunning() && AllResolved(filling, hoisted.Keys)
      requires forall i :: 0 <= i < |tys| ==> Plain(env, tys[i]) && tys[i] < parent
      requires StandsIn(Fill(parent, Quotes(filling)), Around())
      requires match parent case Node(_, members) => tys == members case Named(_, args) => tys == args case _ => false
      modifies this
      ensures (Ranked(env, rank, limit) && Steady(rank, old(inFlight), at, filling)
               && forall i :: 0 <= i < |tys| ==> InPlace(env, rank, at, |filling|, tys[i])) ==> r.Ok?
      ensures r.Err? ==> Refused(env, root, inFlight, Now(), r.error)
      ensures r.Ok? ==> Kept(old(inFlight), old(Now()))
      ensures r.Ok? ==> DescribesAll(env, Now(), old(Remaining()), r.value, FillAll(tys, Quotes(filling)))
      ensures r.Ok? ==> AreSettled(env, tys, FillAll(tys, Quotes(filling)), old(inFlight), hoisted.Keys, |tys|)
      decreases Remaining(), 1, parent, 0
    {
      var docs: seq<Doc> := [];
      ghost var filled := FillAll(tys, Quotes(filling));
      for i := 0 to |tys|
        invariant Kept(old(inFlight), old(Now()))
        invariant DescribesAll(env, Now(), Remaining(), docs, filled[..i])
        invariant AreSettled(env, tys, filled, old(inFlight), hoisted.Keys, i)
      {
        ghost var told := Now();
        AllResolvedInMore(filling, old(hoisted.Keys), told.keys);
        assert filled[i] in filled;
        PartIsIn(filled[i], Fill(parent, Quotes(filling)), Around());
        var doc := Write(tys[i], filling, at);
        if doc.Err? {
          return Err(doc.error);
        }
        DescribesAllInMore(env, told, Now(), Remaining(), docs, filled[..i]);
        OneMoreSettled(env, tys, filled, old(inFlight), told.keys, hoisted.Keys, i);
        OneMoreDescribed(env, Now(), Remaining(), docs, filled, doc.value);
        docs := docs + [doc.value];
      }
      assert filled[..|tys|] == filled;
      return Ok(docs);
    }
  }

  /** A type described against a fresh document, and what that hoisted. */
  method Described(env: Env, ty: Ty) returns (root: Result<Doc, Refusal>, hoisted: map<string, Option<Doc>>,
      ghost told: Told, ghost route: seq<Frame>, ghost nested: nat)
    requires WellFormed(env) && Plain(env, ty) && Closed(ty)
    ensures RecursesInPlace(env) ==> root.Ok?
    ensures root.Err? ==> Refused(env, ty, route, told, root.error)
    ensures told.keys == hoisted.Keys
    ensures root.Ok? ==> Running(env, ty, [], hoisted, told.fillings)
    ensures root.Ok? ==> Describes(env, told, nested, root.value, ty)
    ensures root.Ok? && AllNamelessArguments(env) && NamelessArguments(ty) ==> IsSettled(env, ty, [], hoisted.Keys)
  {
    ghost var rank: map<string, nat>, limit: nat := map[], 0;
    if RecursesInPlace(env) {
      rank, limit :| Ranked(env, rank, limit);
      BelowLimit(env, rank, limit, 0, ty);
    }
    var builder := new Builder(env, ty, rank, limit);
    nested := builder.Remaining();
    ClosedIsUnfilled(ty);
    root := builder.Write(ty, [], limit);
    hoisted := builder.hoisted;
    told, route := builder.Now(), builder.inFlight;
  }

  /** The document a type stands in on its own: its description, joined by whatever it hoisted. It
      holds no reserved entry and every reference of it resolves; each definition is a body of its name
      and filling, at a filling some route from the type comes to; and where the fingerprint tells
      those fillings apart, the document says at every path what the type means there. It is refused
      along a route from the type that comes to a name in flight at another filling. */
  method RootedDocument(env: Env, ty: Ty) returns (r: Result<Document, Refusal>, ghost told: Told,
      ghost route: seq<Frame>)
    requires WellFormed(env) && Plain(env, ty) && Closed(ty)
    ensures RecursesInPlace(env) ==> r.Ok?
    ensures r.Err? ==> Refused(env, ty, route, told, r.error)
    ensures r.Ok? ==> HoistsOnlyWhatReturns(env, ty, told, r.value)
    ensures r.Ok? && AllNamelessArguments(env) && NamelessArguments(ty) ==>
      NothingIsRefused(env, ty) && HoistsAllThatReturns(env, ty, r.value.defs.Keys)
    ensures r.Ok? ==> Resolved(r.value.root, r.value.defs.Keys)
    ensures r.Ok? ==> forall key :: key in r.value.defs ==> Resolved(r.value.defs[key], r.value.defs.Keys)
    ensures r.Ok? ==> exists nested: nat :: Describes(env, told, nested, r.value.root, ty)
    ensures r.Ok? ==> Complete(env, r.value.defs, told) && AllReached(env, told, ty, told.fillings)
    ensures r.Ok? && TellsApart(env, told.fillings) ==> forall path: seq<nat>, seen ::
      Says(r.value.root, r.value.defs, path, seen) <==> Means(env, ty, path, seen)
  {
    ghost var nested: nat;
    var root, hoisted;
    root, hoisted, told, route, nested := Described(env, ty);
    if root.Err? {
      return Err(root.error), told, route;
    }
    if AllNamelessArguments(env) && NamelessArguments(ty) {
      SettledIsWhatReturns(env, ty, hoisted.Keys);
    }
    NoneIsReserved(env, hoisted, told.fillings);
    var defs := map key | key in hoisted :: hoisted[key].value;
    DefinitionsAreWhole(env, hoisted, defs, told);
    DescribedIsResolved(env, told, nested, root.value, ty);
    NothingIsHoisted(env, ty, told, Document(defs, root.value));
    if TellsApart(env, told.fillings) {
      HoistingKeepsMeaning(env, defs, told, nested, root.value, ty);
    }
    return Ok(Document(defs, root.value)), told, route;
  }

  /** With no name in flight, no entry is reserved. */
  lemma NoneIsReserved(env: Env, hoisted: map<string, Option<Doc>>, fillings: set<seq<Doc>>)
    requires Sound(env, [], hoisted, fillings)
    ensures forall key :: key in hoisted ==> hoisted[key].Some?
  {
    forall key | key in hoisted ensures hoisted[key].Some? {
      assert hoisted[key].None? ==> Reserved(env, [], key);
    }
  }

  lemma DefinitionsAreWhole(env: Env, hoisted: map<string, Option<Doc>>, defs: map<string, Doc>, told: Told)
    requires Sound(env, [], hoisted, told.fillings) && told.keys == hoisted.Keys == defs.Keys
    requires forall key :: key in hoisted ==> hoisted[key] == Some(defs[key])
    ensures Complete(env, defs, told) && forall key :: key in defs ==> Resolved(defs[key], defs.Keys)
  {
    forall key | key in defs ensures Defines(env, told, key, defs[key]) && Resolved(defs[key], defs.Keys) {
      assert Defines(env, told, key, hoisted[key].value);
      DefinedIsResolved(env, told, key, defs[key]);
    }
  }

  /** Each definition is of a name and filling some way comes back to; where none does there is no
      definition, and no reference in the document. */
  ghost predicate HoistsOnlyWhatReturns(env: Env, ty: Ty, told: Told, document: Document) {
    && EachReturns(env, told, ty, document.defs.Keys)
    && ((forall frame :: !Returns(env, told, ty, frame)) ==> document.defs == map[] && IsInLine(document.root))
  }

  /** Whatever some way comes back to has a definition. */
  ghost predicate HoistsAllThatReturns(env: Env, ty: Ty, keys: set<string>) {
    forall told, frame: Frame :: Returns(env, told, ty, frame) ==> Key(env, frame.name, frame.filling) in keys
  }

  ghost predicate NothingIsRefused(env: Env, ty: Ty) {
    forall frames, told, refusal :: !Refused(env, ty, frames, told, refusal)
  }

  lemma SettledIsWhatReturns(env: Env, ty: Ty, keys: set<string>)
    requires NamelessArguments(ty) && AllNamelessArguments(env) && IsSettled(env, ty, [], keys)
    ensures HoistsAllThatReturns(env, ty, keys) && NothingIsRefused(env, ty)
  {
    forall told, frame: Frame | Returns(env, told, ty, frame) ensures Key(env, frame.name, frame.filling) in keys {
      ReturnedIsSettled(env, ty, told, frame, keys);
    }
    forall frames, told, refusal ensures !Refused(env, ty, frames, told, refusal) {
      if Refused(env, ty, frames, told, refusal) {
        RefusedClashes(env, ty, frames, told, refusal);
      }
    }
  }

  lemma NothingIsHoisted(env: Env, ty: Ty, told: Told, document: Document)
    requires EachReturns(env, told, ty, told.keys) && Resolved(document.root, told.keys)
    requires document.defs.Keys == told.keys
    ensures HoistsOnlyWhatReturns(env, ty, told, document)
  {
    if told.keys != {} {
      var key :| key in told.keys;
      assert KeyReturns(env, told, ty, key);
    } else {
      ResolvedByNoneIsInLine(document.root);
    }
  }

  lemma DefinedIsResolved(env: Env, told: Told, key: string, doc: Doc)
    requires Defines(env, told, key, doc)
    ensures Resolved(doc, told.keys)
  {
    var name, filling, nested: nat :| DefinesAt(env, told, key, doc, name, filling, nested);
    DescribedIsResolved(env, told, nested, doc, Instance(env, name, filling));
  }

  lemma {:induction false} ClosedIsUnfilled(ty: Ty)
    requires Closed(ty)
    ensures Fill(ty, Quotes([])) == ty
  {
    match ty
    case Node(_, members) =>
      forall i | 0 <= i < |members| ensures Fill(members[i], Quotes([])) == members[i] { ClosedIsUnfilled(members[i]); }
    case Named(_, args) =>
      forall i | 0 <= i < |args| ensures Fill(args[i], Quotes([])) == args[i] { ClosedIsUnfilled(args[i]); }
    case Quoted(_) =>
  }
}
