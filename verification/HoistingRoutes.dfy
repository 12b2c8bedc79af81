/** The ways a type's names lead on to one another, each written by the body of the one before: what
    the names in flight are, and what a refusal is. */
module HoistingRoutes {
  import opened Wrappers
  import opened HoistingModel
  import opened HoistingMeaning

  /** A reference that closes a cycle at a filling the name is not in flight at. */
  datatype Refusal = Refilled(name: string, inFlight: seq<Doc>, named: seq<Doc>)

  /** A name being written, beside the documents its parameters are filled with. */
  datatype Frame = Frame(name: string, filling: seq<Doc>)

  ghost predicate IsFrame(env: Env, frame: Frame) {
    frame.name in env.declared && |frame.filling| == env.declared[frame.name].parameters
  }

  /** The filling `name` is in flight at. */
  function InFlightAt(frames: seq<Frame>, name: string): (found: Option<seq<Doc>>)
    ensures found.Some? ==> Frame(name, found.value) in frames
    ensures found.None? ==> forall frame :: frame in frames ==> frame.name != name
  {
    if frames == [] then None
    else if frames[0].name == name then Some(frames[0].filling)
    else InFlightAt(frames[1..], name)
  }

  ghost function NotInFlight(env: Env, frames: seq<Frame>): set<string> {
    set name | name in env.declared && InFlightAt(frames, name).None?
  }

  lemma FewerNotInFlight(env: Env, frames: seq<Frame>, frame: Frame)
    requires frame.name in env.declared && InFlightAt(frames, frame.name).None?
    ensures |NotInFlight(env, frames + [frame])| == |NotInFlight(env, frames)| - 1
  {
    forall name
      ensures InFlightAt(frames + [frame], name).None? <==> InFlightAt(frames, name).None? && name != frame.name
    {
      assert frame in frames + [frame];
      assert forall held :: held in frames ==> held in frames + [frame];
    }
    assert NotInFlight(env, frames) == NotInFlight(env, frames + [frame]) + {frame.name};
  }

  ghost predicate DescribesAll(env: Env, told: Told, nested: nat, docs: seq<Doc>, tys: seq<Ty>) {
    |docs| == |tys| && forall i :: 0 <= i < |docs| ==> Describes(env, told, nested, docs[i], tys[i])
  }

  lemma DescribesAllInMore(env: Env, told: Told, more: Told, nested: nat, docs: seq<Doc>, tys: seq<Ty>)
    requires DescribesAll(env, told, nested, docs, tys) && Among(told, more)
    ensures DescribesAll(env, more, nested, docs, tys)
  {
    forall i | 0 <= i < |docs| ensures Describes(env, more, nested, docs[i], tys[i]) {
      DescribesInMore(env, told, more, nested, docs[i], tys[i]);
    }
  }

  // ----- the way to a name -----

  /** `ty` writes `name`, its arguments described by `filling`. */
  ghost predicate Writes(env: Env, told: Told, ty: Ty, frame: Frame) {
    match ty
    case Node(_, members) => exists i :: 0 <= i < |members| && Writes(env, told, members[i], frame)
    case Named(name, args) =>
      || (name == frame.name && Handed(env, told, args, frame))
      || exists i :: 0 <= i < |args| && Writes(env, told, args[i], frame)
    case Param(_) => false
    case Quoted(_) => false
  }

  ghost predicate Handed(env: Env, told: Told, args: seq<Ty>, frame: Frame) {
    exists nested: nat, docs: seq<Doc> ::
      DescribesAll(env, told, nested, docs, args) && IsFrame(env, frame)
        && frame.filling == Bound(|frame.filling|, docs)
  }

  /** Each frame is written by the body of the one before it, the first by `ty`. */
  ghost predicate Route(env: Env, told: Told, ty: Ty, frames: seq<Frame>)
    decreases |frames|
  {
    frames == [] ||
    (IsFrame(env, frames[0]) && Writes(env, told, ty, frames[0])
     && Route(env, told, Instance(env, frames[0].name, frames[0].filling), frames[1..]))
  }

  /** What the last frame of a route stands in, or `ty` where there is none. */
  ghost function Last(env: Env, ty: Ty, frames: seq<Frame>): Ty
    requires forall frame :: frame in frames ==> IsFrame(env, frame)
  {
    if frames == [] then ty
    else
      var last := frames[|frames| - 1];
      assert last in frames && IsFrame(env, last);
      Instance(env, last.name, last.filling)
  }

  /** `part` stands in `ty`. */
  ghost predicate StandsIn(part: Ty, ty: Ty) {
    part == ty ||
    match ty
    case Node(_, members) => exists i :: 0 <= i < |members| && StandsIn(part, members[i])
    case Named(_, args) => exists i :: 0 <= i < |args| && StandsIn(part, args[i])
    case _ => false
  }

  lemma {:induction false} PartIsIn(part: Ty, whole: Ty, ty: Ty)
    requires StandsIn(whole, ty)
    requires match whole
      case Node(_, members) => part in members
      case Named(_, args) => part in args
      case _ => false
    ensures StandsIn(part, ty)
  {
    if whole == ty {
      var parts := if ty.Node? then ty.members else ty.arguments;
      var i :| 0 <= i < |parts| && parts[i] == part;
      assert StandsIn(part, parts[i]);
    } else {
      var parts := if ty.Node? then ty.members else ty.arguments;
      var i :| 0 <= i < |parts| && StandsIn(whole, parts[i]);
      PartIsIn(part, whole, parts[i]);
    }
  }

  lemma {:induction false} WritesWhatItHolds(env: Env, told: Told, part: Ty, ty: Ty, frame: Frame)
    requires StandsIn(part, ty) && Writes(env, told, part, frame)
    ensures Writes(env, told, ty, frame)
  {
    if part != ty {
      var parts := if ty.Node? then ty.members else ty.arguments;
      var i :| 0 <= i < |parts| && StandsIn(part, parts[i]);
      WritesWhatItHolds(env, told, part, parts[i], frame);
    }
  }

  lemma {:induction false} WritesInMore(env: Env, told: Told, more: Told, ty: Ty, frame: Frame)
    requires Writes(env, told, ty, frame) && Among(told, more)
    ensures Writes(env, more, ty, frame)
  {
    match ty
    case Node(_, members) =>
      var i :| 0 <= i < |members| && Writes(env, told, members[i], frame);
      WritesInMore(env, told, more, members[i], frame);
    case Named(name, args) =>
      if name == frame.name && Handed(env, told, args, frame) {
        var nested: nat, docs: seq<Doc> :|
          DescribesAll(env, told, nested, docs, args) && frame.filling == Bound(|frame.filling|, docs);
        DescribesAllInMore(env, told, more, nested, docs, args);
      } else {
        var i :| 0 <= i < |args| && Writes(env, told, args[i], frame);
        WritesInMore(env, told, more, args[i], frame);
      }
  }

  lemma {:induction false} RouteInMore(env: Env, told: Told, more: Told, ty: Ty, frames: seq<Frame>)
    requires Route(env, told, ty, frames) && Among(told, more)
    ensures Route(env, more, ty, frames)
    decreases |frames|
  {
    if frames != [] {
      WritesInMore(env, told, more, ty, frames[0]);
      RouteInMore(env, told, more, Instance(env, frames[0].name, frames[0].filling), frames[1..]);
    }
  }

  /** A route goes on with what its last frame's body writes. */
  lemma {:induction false} RouteGoesOn(env: Env, told: Told, ty: Ty, frames: seq<Frame>, frame: Frame)
    requires (forall held :: held in frames ==> IsFrame(env, held)) && IsFrame(env, frame)
    requires Route(env, told, ty, frames) && Writes(env, told, Last(env, ty, frames), frame)
    ensures Route(env, told, ty, frames + [frame])
    decreases |frames|
  {
    var all := frames + [frame];
    if frames == [] {
      assert all[1..] == [];
    } else {
      var rest := frames[1..];
      assert all[0] == frames[0] && all[1..] == rest + [frame];
      assert rest != [] ==> rest[|rest| - 1] == frames[|frames| - 1];
      RouteGoesOn(env, told, Instance(env, frames[0].name, frames[0].filling), rest, frame);
    }
  }

  /** Each filling is that of a name some route from `ty` comes to. */
  ghost predicate AllReached(env: Env, told: Told, ty: Ty, fillings: set<seq<Doc>>) {
    forall filling :: filling in fillings ==> Reached(env, told, ty, filling)
  }

  ghost predicate Reached(env: Env, told: Told, ty: Ty, filling: seq<Doc>) {
    exists frames: seq<Frame> ::
      Route(env, told, ty, frames) && frames != [] && frames[|frames| - 1].filling == filling
  }

  lemma AllReachedInMore(env: Env, told: Told, more: Told, ty: Ty, fillings: set<seq<Doc>>)
    requires AllReached(env, told, ty, fillings) && Among(told, more)
    ensures AllReached(env, more, ty, fillings)
  {
    forall filling | filling in fillings ensures Reached(env, more, ty, filling) {
      var frames: seq<Frame> :| Route(env, told, ty, frames) && frames != [] && frames[|frames| - 1].filling == filling;
      RouteInMore(env, told, more, ty, frames);
    }
  }

  /** A name described with its arguments is what the route comes to next. */
  lemma NamedIsReached(env: Env, told: Told, root: Ty, frames: seq<Frame>, nested: nat, ty: Ty, docs: seq<Doc>)
    requires ty.Named? && ty.name in env.declared && forall held :: held in frames ==> IsFrame(env, held)
    requires Route(env, told, root, frames) && StandsIn(ty, Last(env, root, frames))
    requires DescribesAll(env, told, nested, docs, ty.arguments)
    ensures Route(env, told, root, frames + [Frame(ty.name, Bound(env.declared[ty.name].parameters, docs))])
  {
    var frame := Frame(ty.name, Bound(env.declared[ty.name].parameters, docs));
    assert Handed(env, told, ty.arguments, frame);
    WritesWhatItHolds(env, told, ty, Last(env, root, frames), frame);
    RouteGoesOn(env, told, root, frames, frame);
  }

  /** No name is in flight twice. */
  ghost predicate Distinct(frames: seq<Frame>) {
    forall i, k :: 0 <= i < k < |frames| ==> frames[i].name != frames[k].name
  }

  /** Some way through names apart comes back to `frame`, at the filling it stands at. */
  ghost predicate Returns(env: Env, told: Told, ty: Ty, frame: Frame) {
    exists frames: seq<Frame> :: Distinct(frames) && frame in frames && Route(env, told, ty, frames + [frame])
  }

  /** Each of `keys` is that of a name and filling some way comes back to. */
  ghost predicate EachReturns(env: Env, told: Told, ty: Ty, keys: set<string>) {
    forall key :: key in keys ==> KeyReturns(env, told, ty, key)
  }

  ghost predicate KeyReturns(env: Env, told: Told, ty: Ty, key: string) {
    exists frame: Frame :: key == Key(env, frame.name, frame.filling) && Returns(env, told, ty, frame)
  }

  lemma EachReturnsInMore(env: Env, told: Told, more: Told, ty: Ty, keys: set<string>)
    requires EachReturns(env, told, ty, keys) && Among(told, more)
    ensures EachReturns(env, more, ty, keys)
  {
    forall key | key in keys ensures KeyReturns(env, more, ty, key) {
      var frame: Frame :| key == Key(env, frame.name, frame.filling) && Returns(env, told, ty, frame);
      var frames: seq<Frame> :| Distinct(frames) && frame in frames && Route(env, told, ty, frames + [frame]);
      RouteInMore(env, told, more, ty, frames + [frame]);
      assert Returns(env, more, ty, frame);
    }
  }

  /** No reference stands in `doc`. */
  predicate IsInLine(doc: Doc) {
    doc.Written? && forall i :: 0 <= i < |doc.members| ==> IsInLine(doc.members[i])
  }

  lemma {:induction false} ResolvedByNoneIsInLine(doc: Doc)
    requires Resolved(doc, {})
    ensures IsInLine(doc)
  {
    forall i | 0 <= i < |doc.members| ensures IsInLine(doc.members[i]) {
      ResolvedByNoneIsInLine(doc.members[i]);
    }
  }

  /** A run is refused where its frames lead on to a name that is among them at another filling. */
  ghost predicate Refused(env: Env, root: Ty, frames: seq<Frame>, told: Told, refusal: Refusal) {
    && Distinct(frames) && Route(env, told, root, frames + [Frame(refusal.name, refusal.named)])
    && Frame(refusal.name, refusal.inFlight) in frames
    && refusal.inFlight != refusal.named
  }
}
