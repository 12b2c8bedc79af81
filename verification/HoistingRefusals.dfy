/** When a run is refused. Where no name is written in another's arguments, every argument has one
    description, and a run is refused exactly where names lead on, none of them twice, to one of them
    at another filling. */
module HoistingRefusals {
  import opened Wrappers
  import opened HoistingModel
  import opened HoistingMeaning
  import opened HoistingRoutes

  predicate Nameless(ty: Ty) {
    match ty
    case Node(_, members) => forall i :: 0 <= i < |members| ==> Nameless(members[i])
    case Named(_, _) => false
    case Param(_) => true
    case Quoted(_) => true
  }

  /** No name is written in the arguments of one. */
  predicate NamelessArguments(ty: Ty) {
    match ty
    case Node(_, members) => forall i :: 0 <= i < |members| ==> NamelessArguments(members[i])
    case Named(_, args) => forall i :: 0 <= i < |args| ==> Nameless(args[i])
    case Param(_) => true
    case Quoted(_) => true
  }

  predicate AllNamelessArguments(env: Env) {
    forall name :: name in env.declared ==> NamelessArguments(env.declared[name].body)
  }

  /** The one document a type without names is described by. */
  function DocOf(ty: Ty): Doc {
    match ty
    case Node(keywords, members) =>
      Written(keywords, seq(|members|, i requires 0 <= i < |members| => DocOf(members[i])))
    case Quoted(document) => document
    case Param(_) => PERMISSIVE
    case Named(_, _) => PERMISSIVE
  }

  function FrameOf(env: Env, name: string, args: seq<Ty>): Frame
    requires name in env.declared
  {
    Frame(name, Bound(env.declared[name].parameters, seq(|args|, i requires 0 <= i < |args| => DocOf(args[i]))))
  }

  lemma {:induction false} NamelessIsDescribedOnce(env: Env, told: Told, nested: nat, doc: Doc, ty: Ty)
    requires Nameless(ty) && Describes(env, told, nested, doc, ty)
    ensures doc == DocOf(ty)
  {
    if ty.Node? {
      forall i | 0 <= i < |ty.members| ensures doc.members[i] == DocOf(ty.members[i]) {
        NamelessIsDescribedOnce(env, told, nested, doc.members[i], ty.members[i]);
      }
    }
  }

  /** The frame a name is entered at, whatever else its arguments may be referred to. */
  lemma FrameIsOne(env: Env, told: Told, nested: nat, docs: seq<Doc>, name: string, args: seq<Ty>)
    requires name in env.declared && DescribesAll(env, told, nested, docs, args)
    requires forall i :: 0 <= i < |args| ==> Nameless(args[i])
    ensures Frame(name, Bound(env.declared[name].parameters, docs)) == FrameOf(env, name, args)
  {
    forall i | 0 <= i < |args| ensures docs[i] == DocOf(args[i]) {
      NamelessIsDescribedOnce(env, told, nested, docs[i], args[i]);
    }
    assert docs == seq(|args|, i requires 0 <= i < |args| => DocOf(args[i]));
  }

  lemma {:induction false} NamelessWhenFilled(ty: Ty, filling: seq<Doc>)
    ensures Nameless(ty) ==> Nameless(Fill(ty, Quotes(filling)))
    ensures NamelessArguments(ty) ==> NamelessArguments(Fill(ty, Quotes(filling)))
  {
    match ty
    case Node(_, members) =>
      forall i | 0 <= i < |members|
        ensures Nameless(members[i]) ==> Nameless(Fill(members[i], Quotes(filling)))
        ensures NamelessArguments(members[i]) ==> NamelessArguments(Fill(members[i], Quotes(filling)))
      {
        NamelessWhenFilled(members[i], filling);
      }
    case Named(_, args) =>
      forall i | 0 <= i < |args| ensures Nameless(args[i]) ==> Nameless(Fill(args[i], Quotes(filling))) {
        NamelessWhenFilled(args[i], filling);
      }
    case Param(_) =>
    case Quoted(_) =>
  }

  // ----- what comes back below -----

  /** Below `ty`, past the names in flight, `frame` is come to where its name is in flight at `held`. */
  ghost predicate ComesBack(env: Env, ty: Ty, frames: seq<Frame>, frame: Frame, held: seq<Doc>)
    decreases |NotInFlight(env, frames)|, 1, ty
  {
    match ty
    case Node(_, members) => exists i :: 0 <= i < |members| && ComesBack(env, members[i], frames, frame, held)
    case Named(name, args) => name in env.declared && ComesBackAt(env, FrameOf(env, name, args), frames, frame, held)
    case Param(_) => false
    case Quoted(_) => false
  }

  ghost predicate ComesBackAt(env: Env, next: Frame, frames: seq<Frame>, frame: Frame, held: seq<Doc>)
    requires next.name in env.declared
    decreases |NotInFlight(env, frames)|, 0
  {
    match InFlightAt(frames, next.name)
    case Some(filling) => next == frame && filling == held
    case None =>
      FewerNotInFlight(env, frames, next);
      ComesBack(env, Instance(env, next.name, next.filling), frames + [next], frame, held)
  }

  /** Below `ty`, a name is come to that is in flight at another filling. */
  ghost predicate Clashes(env: Env, ty: Ty, frames: seq<Frame>) {
    exists frame: Frame, held :: ComesBack(env, ty, frames, frame, held) && held != frame.filling
  }

  /** Whatever comes back below `ty` does so at the filling it stands at, and its key is among `keys`. */
  ghost predicate IsSettled(env: Env, ty: Ty, frames: seq<Frame>, keys: set<string>) {
    forall frame: Frame, held :: ComesBack(env, ty, frames, frame, held) ==>
      held == frame.filling && Key(env, frame.name, frame.filling) in keys
  }

  ghost predicate IsSettledAt(env: Env, next: Frame, frames: seq<Frame>, keys: set<string>)
    requires next.name in env.declared
  {
    forall frame: Frame, held :: ComesBackAt(env, next, frames, frame, held) ==>
      held == frame.filling && Key(env, frame.name, frame.filling) in keys
  }

  lemma {:induction false} NamelessWritesNone(env: Env, told: Told, ty: Ty, frame: Frame)
    requires Nameless(ty)
    ensures !Writes(env, told, ty, frame)
  {
    if ty.Node? {
      forall i | 0 <= i < |ty.members| ensures !Writes(env, told, ty.members[i], frame) {
        NamelessWritesNone(env, told, ty.members[i], frame);
      }
    }
  }

  /** What comes back below a name comes back below a type that writes it. */
  lemma {:induction false} WrittenComesBack(env: Env, told: Told, ty: Ty, frames: seq<Frame>, next: Frame,
      frame: Frame, held: seq<Doc>)
    requires NamelessArguments(ty) && IsFrame(env, next)
    requires Writes(env, told, ty, next) && ComesBackAt(env, next, frames, frame, held)
    ensures ComesBack(env, ty, frames, frame, held)
  {
    match ty
    case Node(_, members) =>
      var i :| 0 <= i < |members| && Writes(env, told, members[i], next);
      WrittenComesBack(env, told, members[i], frames, next, frame, held);
    case Named(name, args) =>
      forall i | 0 <= i < |args| ensures !Writes(env, told, args[i], next) {
        NamelessWritesNone(env, told, args[i], next);
      }
      var nested: nat, docs: seq<Doc> :|
        DescribesAll(env, told, nested, docs, args) && next.filling == Bound(|next.filling|, docs);
      FrameIsOne(env, told, nested, docs, name, args);
  }

  lemma {:induction false} InFlightOnce(frames: seq<Frame>, held: Frame)
    requires Distinct(frames) && held in frames
    ensures InFlightAt(frames, held.name) == Some(held.filling)
  {
    if frames[0] != held {
      var i :| 0 <= i < |frames| && frames[i] == held;
      assert frames[0].name != frames[i].name;
      assert held in frames[1..];
      InFlightOnce(frames[1..], held);
    }
  }

  /** Where names lead on, none twice, to one of them or of those in flight, it comes back. */
  lemma {:induction false} RouteComesBack(env: Env, told: Told, ty: Ty, frames: seq<Frame>, more: seq<Frame>,
      frame: Frame, held: Frame)
    requires NamelessArguments(ty) && AllNamelessArguments(env)
    requires Distinct(frames + more) && Route(env, told, ty, more + [frame])
    requires held in frames + more && held.name == frame.name
    ensures ComesBack(env, ty, frames, frame, held.filling)
    decreases |more|
  {
    if more == [] {
      assert frames + more == frames && (more + [frame])[0] == frame;
      InFlightOnce(frames, held);
      WrittenComesBack(env, told, ty, frames, frame, frame, held.filling);
    } else {
      var first, rest := more[0], more[1..];
      assert (more + [frame])[0] == first && (more + [frame])[1..] == rest + [frame];
      assert frames + more == (frames + [first]) + rest;
      NotYetInFlight(frames, more);
      NamelessWhenFilled(env.declared[first.name].body, first.filling);
      RouteComesBack(env, told, Instance(env, first.name, first.filling), frames + [first], rest, frame, held);
      WrittenComesBack(env, told, ty, frames, first, frame, held.filling);
    }
  }

  lemma NotYetInFlight(frames: seq<Frame>, more: seq<Frame>)
    requires Distinct(frames + more) && more != []
    ensures InFlightAt(frames, more[0].name).None?
  {
    var all := frames + more;
    assert all[|frames|] == more[0];
    forall frame | frame in frames ensures frame.name != more[0].name {
      var i :| 0 <= i < |frames| && frames[i] == frame;
      assert all[i] == frame;
    }
  }

  /** So what is refused clashes, whatever it is told. */
  lemma RefusedClashes(env: Env, ty: Ty, frames: seq<Frame>, told: Told, refusal: Refusal)
    requires NamelessArguments(ty) && AllNamelessArguments(env)
    requires Refused(env, ty, frames, told, refusal)
    ensures Clashes(env, ty, [])
  {
    var frame, held := Frame(refusal.name, refusal.named), Frame(refusal.name, refusal.inFlight);
    assert [] + frames == frames;
    RouteComesBack(env, told, ty, [], frames, frame, held);
    assert ComesBack(env, ty, [], frame, held.filling);
  }

  /** And what a route returns to is settled with the type. */
  lemma ReturnedIsSettled(env: Env, ty: Ty, told: Told, frame: Frame, keys: set<string>)
    requires NamelessArguments(ty) && AllNamelessArguments(env)
    requires Returns(env, told, ty, frame) && IsSettled(env, ty, [], keys)
    ensures Key(env, frame.name, frame.filling) in keys
  {
    var frames: seq<Frame> :| Distinct(frames) && frame in frames && Route(env, told, ty, frames + [frame]);
    assert [] + frames == frames;
    RouteComesBack(env, told, ty, [], frames, frame, frame);
  }

  lemma SettledInMore(env: Env, ty: Ty, frames: seq<Frame>, keys: set<string>, more: set<string>)
    requires IsSettled(env, ty, frames, keys) && keys <= more
    ensures IsSettled(env, ty, frames, more)
  {
  }

  // ----- names that come back without a refusal -----

  /** A holder of two slots of one generic type that holds it in turn, each slot at a type of its own. */
  function TwoSlots(labelled: Doc -> Option<string>, digest: seq<Doc> -> string): Env {
    var one, two := Named("Slot", [Node("u8", [])]), Named("Slot", [Node("u16", [])]);
    Env(map["Holder" := Declaration(0, Node("{}", [one, two])),
          "Slot" := Declaration(1, Node("{}", [Named("Holder", []), Param(0)]))],
      labelled, digest)
  }

  lemma FillOfTwo(keywords: string, one: Ty, other: Ty, arguments: seq<Ty>)
    ensures Fill(Node(keywords, [one, other]), arguments)
         == Node(keywords, [Fill(one, arguments), Fill(other, arguments)])
  {
    var members := [one, other];
    assert seq(2, i requires 0 <= i < 2 => Fill(members[i], arguments))
        == [Fill(one, arguments), Fill(other, arguments)];
  }

  lemma FillOfSlot(keywords: string, arguments: seq<Ty>)
    ensures Fill(Named("Holder", []), arguments) == Named("Holder", [])
    ensures Fill(Named("Slot", [Node(keywords, [])]), arguments) == Named("Slot", [Node(keywords, [])])
  {
    assert Fill(Named("Holder", []), arguments).arguments == [];
    var args := [Node(keywords, [])];
    assert Fill(args[0], arguments).members == [];
    assert seq(1, i requires 0 <= i < 1 => Fill(args[i], arguments)) == args;
  }

  lemma SlotIsOpened(env: Env, doc: Doc)
    requires env == TwoSlots(env.labelled, env.digest)
    ensures Instance(env, "Slot", [doc]) == Node("{}", [Named("Holder", []), Quoted(doc)])
    ensures Instance(env, "Holder", []) == env.declared["Holder"].body
  {
    FillOfTwo("{}", Named("Holder", []), Param(0), Quotes([doc]));
    FillOfSlot("u8", Quotes([doc]));
    FillOfTwo("{}", Named("Slot", [Node("u8", [])]), Named("Slot", [Node("u16", [])]), Quotes([]));
    FillOfSlot("u8", Quotes([]));
    FillOfSlot("u16", Quotes([]));
  }

  lemma SlotIsFramed(env: Env, keywords: string)
    requires env == TwoSlots(env.labelled, env.digest)
    ensures FrameOf(env, "Slot", [Node(keywords, [])]) == Frame("Slot", [Written(keywords, [])])
    ensures FrameOf(env, "Holder", []) == Frame("Holder", [])
  {
    var args := [Node(keywords, [])];
    assert DocOf(args[0]).members == [];
    assert seq(1, i requires 0 <= i < 1 => DocOf(args[i])) == [DocOf(args[0])];
    assert Bound(1, [DocOf(args[0])]) == [DocOf(args[0])];
    assert Bound(0, []) == [];
  }

  lemma SlotIsWritten(env: Env, told: Told, keywords: string, slots: seq<Ty>, at: nat)
    requires "Slot" in env.declared && env.declared["Slot"].parameters == 1
    requires at < |slots| && slots[at] == Named("Slot", [Node(keywords, [])])
    ensures Writes(env, told, Node("{}", slots), Frame("Slot", [Written(keywords, [])]))
  {
    var frame, args, docs := Frame("Slot", [Written(keywords, [])]), [Node(keywords, [])], [Written(keywords, [])];
    assert DescribesAll(env, told, 0, docs, args) && frame.filling == Bound(1, docs);
    assert Handed(env, told, args, frame);
    assert Writes(env, told, slots[at], frame);
  }

  lemma HolderIsWritten(env: Env, told: Told, held: Ty)
    requires "Holder" in env.declared && env.declared["Holder"].parameters == 0
    ensures Writes(env, told, Named("Holder", []), Frame("Holder", []))
    ensures Writes(env, told, Node("{}", [Named("Holder", []), held]), Frame("Holder", []))
  {
    var frame := Frame("Holder", []);
    assert DescribesAll(env, told, 0, [], []) && frame.filling == Bound(0, []);
    assert Handed(env, told, [], frame);
    assert Writes(env, told, [Named("Holder", []), held][0], frame);
  }

  lemma SlotClashesNot(env: Env, keywords: string, frames: seq<Frame>)
    requires env == TwoSlots(env.labelled, env.digest) && frames == [Frame("Holder", [])]
    ensures !Clashes(env, Named("Slot", [Node(keywords, [])]), frames)
  {
    var slot := Frame("Slot", [Written(keywords, [])]);
    SlotIsFramed(env, keywords);
    SlotIsOpened(env, slot.filling[0]);
    var body := Instance(env, "Slot", slot.filling);
    assert frames[1..] == [] && InFlightAt(frames, "Slot").None?;
    assert InFlightAt(frames + [slot], "Holder") == Some([]);
    FewerNotInFlight(env, frames, slot);
    forall frame: Frame, held | ComesBack(env, Named("Slot", [Node(keywords, [])]), frames, frame, held)
      ensures held == frame.filling
    {
      assert ComesBackAt(env, slot, frames, frame, held);
      assert ComesBack(env, body, frames + [slot], frame, held);
      assert !ComesBack(env, body.members[1], frames + [slot], frame, held);
      assert ComesBack(env, body.members[0], frames + [slot], frame, held);
    }
  }

  lemma HolderClashesNot(env: Env)
    requires env == TwoSlots(env.labelled, env.digest)
    ensures !Clashes(env, Named("Holder", []), [])
  {
    var holder, body := Frame("Holder", []), env.declared["Holder"].body;
    SlotIsOpened(env, PERMISSIVE);
    SlotIsFramed(env, "u8");
    SlotClashesNot(env, "u8", [holder]);
    SlotClashesNot(env, "u16", [holder]);
    assert [] + [holder] == [holder];
    FewerNotInFlight(env, [], holder);
    forall frame: Frame, held | ComesBack(env, Named("Holder", []), [], frame, held) ensures held == frame.filling {
      assert ComesBackAt(env, holder, [], frame, held);
      assert ComesBack(env, body, [holder], frame, held);
      assert ComesBack(env, body.members[0], [holder], frame, held)
        || ComesBack(env, body.members[1], [holder], frame, held);
    }
  }

  lemma RouteByFirst(env: Env, told: Told, ty: Ty, first: Frame, rest: seq<Frame>)
    requires IsFrame(env, first) && Writes(env, told, ty, first)
    requires Route(env, told, Instance(env, first.name, first.filling), rest)
    ensures Route(env, told, ty, [first] + rest)
  {
    assert ([first] + rest)[0] == first && ([first] + rest)[1..] == rest;
  }

  /** The names of it lead on from one slot to the other, which is the same name at another filling, by
      way of the holder again. That is no clash: what leads there goes through a name twice. */
  lemma ComingBackIsNoClash(labelled: Doc -> Option<string>, digest: seq<Doc> -> string)
    ensures var env := TwoSlots(labelled, digest);
      var holder := Frame("Holder", []);
      var u8, u16 := Frame("Slot", [Written("u8", [])]), Frame("Slot", [Written("u16", [])]);
      && AllNamelessArguments(env)
      && Route(env, Told({}, {}), Named("Holder", []), [holder] + ([u8] + ([holder] + ([u16] + []))))
      && !Clashes(env, Named("Holder", []), [])
  {
    var env := TwoSlots(labelled, digest);
    HolderLeadsBack(env, Told({}, {}), Frame("Holder", []), Frame("Slot", [Written("u8", [])]),
      Frame("Slot", [Written("u16", [])]));
    HolderClashesNot(env);
  }

  lemma HolderLeadsBack(env: Env, told: Told, holder: Frame, u8: Frame, u16: Frame)
    requires env == TwoSlots(env.labelled, env.digest) && holder == Frame("Holder", [])
    requires u8 == Frame("Slot", [Written("u8", [])]) && u16 == Frame("Slot", [Written("u16", [])])
    ensures Route(env, told, Named("Holder", []), [holder] + ([u8] + ([holder] + ([u16] + []))))
  {
    var body := env.declared["Holder"].body;
    SlotIsOpened(env, u8.filling[0]);
    HolderIsWritten(env, told, Quoted(u8.filling[0]));
    SlotIsWritten(env, told, "u8", body.members, 0);
    SlotIsWritten(env, told, "u16", body.members, 1);
    RouteByFirst(env, told, body, u16, []);
    RouteByFirst(env, told, Instance(env, "Slot", u8.filling), holder, [u16] + []);
    RouteByFirst(env, told, body, u8, [holder] + ([u16] + []));
    RouteByFirst(env, told, Named("Holder", []), holder, [u8] + ([holder] + ([u16] + [])));
  }
}
