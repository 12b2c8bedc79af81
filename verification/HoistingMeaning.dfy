/** Why hoisting keeps the meaning: a relation between a document and the type it was written for,
    which does not ask in what order or how often the names were described, and the proof that two
    things so related say the same at every path. */
module HoistingMeaning {
  import opened Wrappers
  import opened Decimals
  import opened HoistingModel

  /** Every reference of `doc` is to one of `keys`. */
  ghost predicate Resolved(doc: Doc, keys: set<string>) {
    match doc
    case Reference(key) => key in keys
    case Written(_, members) => forall i :: 0 <= i < |members| ==> Resolved(members[i], keys)
  }

  /** What a document may refer to: the keys hoisted, and the fillings names were described at. */
  datatype Told = Told(keys: set<string>, fillings: set<seq<Doc>>)

  ghost predicate Among(told: Told, more: Told) {
    told.keys <= more.keys && told.fillings <= more.fillings
  }

  /** `doc` was written for `ty`, with at most `nested` descriptions standing in line inside one
      another: a name is either its body written out or a reference to its definition. */
  ghost predicate Describes(env: Env, told: Told, nested: nat, doc: Doc, ty: Ty)
    decreases nested, ty, 1
  {
    match ty
    case Quoted(document) => doc == document && Resolved(doc, told.keys)
    case Node(keywords, members) =>
      && doc.Written? && doc.keywords == keywords && |doc.members| == |members|
      && forall i :: 0 <= i < |members| ==> Describes(env, told, nested, doc.members[i], members[i])
    case Param(_) => false
    case Named(_, _) => exists filling: seq<Doc> :: DescribesAt(env, told, nested, doc, ty, filling)
  }

  /** `doc` was written for the name `ty` at `filling`. */
  ghost predicate DescribesAt(env: Env, told: Told, nested: nat, doc: Doc, ty: Ty, filling: seq<Doc>)
    decreases nested, ty, 0
  {
    && ty.Named?
    && ty.name in env.declared
    && |filling| == env.declared[ty.name].parameters
    && (forall i :: 0 <= i < |filling| && i < |ty.arguments| ==>
         Describes(env, told, nested, filling[i], ty.arguments[i]))
    && (forall i :: |ty.arguments| <= i < |filling| ==> filling[i] == PERMISSIVE)
    && (RefersTo(env, told, doc, ty.name, filling)
        || (nested > 0 && Describes(env, told, nested - 1, doc, Instance(env, ty.name, filling))))
  }

  /** `doc` refers to the definition of `name` at `filling`. */
  ghost predicate RefersTo(env: Env, told: Told, doc: Doc, name: string, filling: seq<Doc>) {
    doc == Reference(Key(env, name, filling)) && doc.key in told.keys && filling in told.fillings
  }

  /** `doc` is a body of the one name and filling `key` stands for. */
  ghost predicate Defines(env: Env, told: Told, key: string, doc: Doc) {
    exists name: string, filling: seq<Doc>, nested: nat :: DefinesAt(env, told, key, doc, name, filling, nested)
  }

  ghost predicate DefinesAt(env: Env, told: Told, key: string, doc: Doc, name: string, filling: seq<Doc>, nested: nat) {
    && name in env.declared
    && |filling| == env.declared[name].parameters
    && filling in told.fillings
    && key == Key(env, name, filling)
    && (forall i :: 0 <= i < |filling| ==> Resolved(filling[i], told.keys))
    && Describes(env, told, nested, doc, Instance(env, name, filling))
  }

  /** Each definition is a body of the name and filling its key stands for. */
  ghost predicate Complete(env: Env, defs: map<string, Doc>, told: Told) {
    && told.keys == defs.Keys
    && forall key {:trigger Defines(env, told, key, defs[key])} :: key in defs ==> Defines(env, told, key, defs[key])
  }

  // ----- keys tell names and fillings apart -----

  lemma FirstDot(a: string, x: string)
    requires '.' !in a
    ensures (a + "." + x)[|a|] == '.'
    ensures forall i :: 0 <= i < |a| ==> (a + "." + x)[i] != '.'
    ensures a == (a + "." + x)[..|a|] && x == (a + "." + x)[|a| + 1..]
  {
  }

  lemma PartedAtTheDot(a: string, b: string, x: string, y: string)
    requires '.' !in a && '.' !in b
    requires a + "." + x == b + "." + y
    ensures a == b && x == y
  {
    FirstDot(a, x);
    FirstDot(b, y);
    assert |a| == |b|;
  }

  lemma SameTail(a: string, b: string, x: string, y: string)
    requires |x| == |y| && a + x == b + y
    ensures x == y
  {
    assert x == (a + x)[|a|..] && y == (b + y)[|b|..];
  }

  /** What is written after the dot. */
  function Suffix(env: Env, filling: seq<Doc>): string {
    var labels := Labels(env, filling);
    if labels == [] then env.digest(filling) else Joined(labels) + "-" + env.digest(filling)
  }

  lemma KeyIsParted(env: Env, name: string, filling: seq<Doc>)
    requires name in env.declared && env.declared[name].parameters > 0
    ensures Key(env, name, filling) == name + "." + Suffix(env, filling)
    ensures '.' in Key(env, name, filling)
  {
    var labels := Labels(env, filling);
    if labels != [] {
      assert name + "." + Joined(labels) + "-" + env.digest(filling)
          == name + "." + (Joined(labels) + "-" + env.digest(filling));
    }
    assert (name + "." + Suffix(env, filling))[|name|] == '.';
  }

  /** The names' keys at the fillings told apart are the name's and the filling's alone. */
  lemma KeysAreDistinct(env: Env, fillings: set<seq<Doc>>, name: string, filling: seq<Doc>, name': string,
      filling': seq<Doc>)
    requires TellsApart(env, fillings) && filling in fillings && filling' in fillings
    requires name in env.declared && name' in env.declared
    requires |filling| == env.declared[name].parameters && |filling'| == env.declared[name'].parameters
    requires Key(env, name, filling) == Key(env, name', filling')
    ensures name == name' && filling == filling'
  {
    if |filling| > 0 { KeyIsParted(env, name, filling); }
    if |filling'| > 0 { KeyIsParted(env, name', filling'); }
    if |filling| > 0 && |filling'| > 0 {
      PartedAtTheDot(name, name', Suffix(env, filling), Suffix(env, filling'));
      SameDigest(env, fillings, filling, filling');
    }
  }

  lemma SameDigest(env: Env, fillings: set<seq<Doc>>, filling: seq<Doc>, filling': seq<Doc>)
    requires TellsApart(env, fillings) && filling in fillings && filling' in fillings
    requires Suffix(env, filling) == Suffix(env, filling')
    ensures filling == filling'
  {
    var before := if Labels(env, filling) == [] then "" else Joined(Labels(env, filling)) + "-";
    var before' := if Labels(env, filling') == [] then "" else Joined(Labels(env, filling')) + "-";
    assert Suffix(env, filling) == before + env.digest(filling);
    assert Suffix(env, filling') == before' + env.digest(filling');
    SameTail(before, before', env.digest(filling), env.digest(filling'));
  }

  // ----- sixteen digits suffice -----

  /** The `width` last hexadecimal digits of `n`. */
  function HexDigits(n: nat, width: nat): (digits: string)
    ensures |digits| == width
  {
    if width == 0 then "" else HexDigits(n / 16, width - 1) + ["0123456789abcdef"[n % 16]]
  }

  lemma {:induction false} HexDigitsTellApart(m: nat, n: nat, width: nat)
    requires m < Power(16, width) && n < Power(16, width) && HexDigits(m, width) == HexDigits(n, width)
    ensures m == n
  {
    if width > 0 {
      var one, other := HexDigits(m, width), HexDigits(n, width);
      assert one[..width - 1] == HexDigits(m / 16, width - 1) && other[..width - 1] == HexDigits(n / 16, width - 1);
      HexDigitsTellApart(m / 16, n / 16, width - 1);
      LastDigitTellsApart(m % 16, n % 16);
      assert one[width - 1] == other[width - 1];
    }
  }

  lemma LastDigitTellsApart(a: nat, b: nat)
    requires a < 16 && b < 16
    ensures "0123456789abcdef"[a] == "0123456789abcdef"[b] ==> a == b
  {
  }

  function Place(order: seq<seq<Doc>>, filling: seq<Doc>): nat {
    if order == [] || order[0] == filling then 0 else Place(order[1..], filling) + 1
  }

  lemma {:induction false} PlaceTellsApart(order: seq<seq<Doc>>, f: seq<Doc>, g: seq<Doc>)
    requires f in order && g in order
    ensures Place(order, f) < |order| && (Place(order, f) == Place(order, g) ==> f == g)
  {
    if order[0] != f && order[0] != g {
      PlaceTellsApart(order[1..], f, g);
    } else if order[0] != f {
      PlaceTellsApart(order[1..], f, f);
    }
  }

  lemma {:induction false} Ordered(fillings: set<seq<Doc>>) returns (order: seq<seq<Doc>>)
    ensures |order| == |fillings| && forall filling :: filling in fillings ==> filling in order
  {
    if fillings == {} {
      order := [];
    } else {
      var filling :| filling in fillings;
      var rest := Ordered(fillings - {filling});
      order := [filling] + rest;
    }
  }

  /** Whatever is declared, and whatever fillings a document is written at, up to as many as sixteen
      hexadecimal digits can number, some fingerprint of sixteen digits tells them apart. */
  lemma SixteenDigitsTellApart(declared: map<string, Declaration>, labelled: Doc -> Option<string>,
      fillings: set<seq<Doc>>)
    returns (env: Env)
    requires |fillings| <= Power(16, DIGITS) && forall name :: name in declared ==> '.' !in name
    ensures env.declared == declared && env.labelled == labelled && TellsApart(env, fillings)
    ensures forall filling :: |env.digest(filling)| == DIGITS
  {
    var order := Ordered(fillings);
    env := Env(declared, labelled, filling => HexDigits(Place(order, filling), DIGITS));
    forall f, g | f in fillings && g in fillings && env.digest(f) == env.digest(g) ensures f == g {
      PlaceTellsApart(order, f, g);
      PlaceTellsApart(order, g, f);
      HexDigitsTellApart(Place(order, f), Place(order, g), DIGITS);
    }
  }

  // ----- monotonicity -----

  lemma {:induction false} ResolvedInMore(doc: Doc, keys: set<string>, more: set<string>)
    requires Resolved(doc, keys) && keys <= more
    ensures Resolved(doc, more)
  {
    match doc
    case Reference(_) =>
    case Written(_, members) =>
      forall i | 0 <= i < |members| ensures Resolved(members[i], more) { ResolvedInMore(members[i], keys, more); }
  }

  lemma {:induction false} DescribesInMore(env: Env, told: Told, more: Told, nested: nat, doc: Doc, ty: Ty)
    requires Describes(env, told, nested, doc, ty) && Among(told, more)
    ensures Describes(env, more, nested, doc, ty)
    decreases nested, ty
  {
    match ty
    case Quoted(_) => ResolvedInMore(doc, told.keys, more.keys);
    case Param(_) =>
    case Node(_, members) =>
      forall i | 0 <= i < |members| ensures Describes(env, more, nested, doc.members[i], members[i]) {
        DescribesInMore(env, told, more, nested, doc.members[i], members[i]);
      }
    case Named(name, args) =>
      var filling :| DescribesAt(env, told, nested, doc, ty, filling);
      forall i | 0 <= i < |filling| && i < |args| ensures Describes(env, more, nested, filling[i], args[i]) {
        DescribesInMore(env, told, more, nested, filling[i], args[i]);
      }
      if !(RefersTo(env, told, doc, name, filling)) {
        DescribesInMore(env, told, more, nested - 1, doc, Instance(env, name, filling));
      }
      assert DescribesAt(env, more, nested, doc, ty, filling);
  }

  lemma {:induction false} DescribedIsResolved(env: Env, told: Told, nested: nat, doc: Doc, ty: Ty)
    requires Describes(env, told, nested, doc, ty)
    ensures Resolved(doc, told.keys)
    decreases nested, ty
  {
    match ty
    case Quoted(_) =>
    case Param(_) =>
    case Node(_, members) =>
      forall i | 0 <= i < |members| ensures Resolved(doc.members[i], told.keys) {
        DescribedIsResolved(env, told, nested, doc.members[i], members[i]);
      }
    case Named(name, args) =>
      var filling :| DescribesAt(env, told, nested, doc, ty, filling);
      if !(RefersTo(env, told, doc, name, filling)) {
        DescribedIsResolved(env, told, nested - 1, doc, Instance(env, name, filling));
      }
  }

  lemma DefinesInMore(env: Env, told: Told, more: Told, key: string, doc: Doc)
    requires Defines(env, told, key, doc) && Among(told, more)
    ensures Defines(env, more, key, doc)
  {
    var name, filling, nested: nat :| DefinesAt(env, told, key, doc, name, filling, nested);
    forall i | 0 <= i < |filling| ensures Resolved(filling[i],
      more.keys) { ResolvedInMore(filling[i], told.keys, more.keys); }
    DescribesInMore(env, told, more, nested, doc, Instance(env, name, filling));
    assert DefinesAt(env, more, key, doc, name, filling, nested);
  }

  // ----- substitution -----

  function FillAll(tys: seq<Ty>, arguments: seq<Ty>): seq<Ty> {
    seq(|tys|, i requires 0 <= i < |tys| => Fill(tys[i], arguments))
  }

  lemma {:induction false} FillOfFill(ty: Ty, inner: seq<Ty>, outer: seq<Ty>)
    ensures Fill(Fill(ty, inner), outer) == Fill(ty, FillAll(inner, outer))
  {
    match ty
    case Node(_, members) =>
      forall i | 0 <= i < |members|
        ensures Fill(Fill(members[i], inner), outer) == Fill(members[i], FillAll(inner, outer))
      { FillOfFill(members[i], inner, outer); }
    case Named(_, args) =>
      forall i | 0 <= i < |args| ensures Fill(Fill(args[i], inner), outer) == Fill(args[i], FillAll(inner, outer)) {
        FillOfFill(args[i], inner, outer);
      }
    case Param(at) =>
    case Quoted(_) =>
  }

  lemma OpenedUnderFill(env: Env, name: string, args: seq<Ty>, outer: seq<Ty>)
    requires name in env.declared
    ensures Opened(env, name, FillAll(args, outer)) == Fill(Opened(env, name, args), outer)
  {
    var parameters := env.declared[name].parameters;
    assert Fill(Node("", []), outer) == Node("", []);
    assert BoundTypes(parameters, FillAll(args, outer)) == FillAll(BoundTypes(parameters, args), outer);
    FillOfFill(env.declared[name].body, BoundTypes(parameters, args), outer);
  }

  // ----- the same is seen in an argument and in the document written for it -----

  lemma {:induction false} LookWithMore(doc: Doc, defs: map<string, Doc>, path: seq<nat>, fuel: nat, more: nat)
    requires Look(doc, defs, path, fuel).Some? && fuel <= more
    ensures Look(doc, defs, path, more) == Look(doc, defs, path, fuel)
    decreases fuel, |path|
  {
    match doc
    case Reference(key) => LookWithMore(defs[key], defs, path, fuel - 1, more - 1);
    case Written(_, members) => if path != [] { LookWithMore(members[path[0]], defs, path[1..], fuel, more); }
  }

  lemma {:induction false} LookTyWithMore(env: Env, ty: Ty, defs: map<string, Doc>, path: seq<nat>, steps: nat,
      fuel: nat, more: nat)
    requires LookTy(env, ty, defs, path, steps, fuel).Some? && fuel <= more
    ensures LookTy(env, ty, defs, path, steps, more) == LookTy(env, ty, defs, path, steps, fuel)
    decreases steps, |path|
  {
    match ty
    case Node(_, members) => if path != [] { LookTyWithMore(env, members[path[0]], defs, path[1..], steps, fuel,
      more); }
    case Named(name, args) => LookTyWithMore(env, Opened(env, name, args), defs, path, steps - 1, fuel, more);
    case Quoted(doc) => LookWithMore(doc, defs, path, fuel, more);
  }

  /** What is seen with arguments in the parameters' place is seen with the documents written for
      them there. */
  lemma {:induction false} ArgumentsToDocs(env: Env, defs: map<string, Doc>, ty: Ty, args: seq<Ty>, filling: seq<Doc>,
      path: seq<nat>, steps: nat, fuel: nat)
    returns (fuel': nat)
    requires |args| == |filling|
    requires forall i, at: seq<nat>, used: nat ::
      0 <= i < |args| && used <= steps && LookTy(env, args[i], defs, at, used, fuel).Some? ==>
        Says(filling[i], defs, at, LookTy(env, args[i], defs, at, used, fuel).value)
    requires LookTy(env, Fill(ty, args), defs, path, steps, fuel).Some?
    ensures LookTy(env, Fill(ty, Quotes(filling)), defs, path, steps, fuel')
         == LookTy(env, Fill(ty, args), defs, path, steps, fuel)
    decreases steps, |path|
  {
    fuel' := fuel;
    match ty
    case Node(_, members) =>
      if path != [] {
        fuel' := ArgumentsToDocs(env, defs, members[path[0]], args, filling, path[1..], steps, fuel);
      }
    case Param(at) =>
      if at < |args| {
        fuel' :| Look(filling[at], defs, path, fuel') == LookTy(env, args[at], defs, path, steps, fuel);
      }
    case Named(name, inner) =>
      OpenedUnderFill(env, name, inner, args);
      OpenedUnderFill(env, name, inner, Quotes(filling));
      fuel' := ArgumentsToDocs(env, defs, Opened(env, name, inner), args, filling, path, steps - 1, fuel);
    case Quoted(_) =>
  }

  /** And the other way round. */
  lemma {:induction false} DocsToArguments(env: Env, defs: map<string, Doc>, ty: Ty, args: seq<Ty>, filling: seq<Doc>,
      path: seq<nat>, steps: nat, fuel: nat)
    returns (steps': nat)
    requires |args| == |filling|
    requires forall i, at: seq<nat> ::
      0 <= i < |args| && Look(filling[i], defs, at, fuel).Some? ==>
        Shows(env, args[i], defs, at, fuel, Look(filling[i], defs, at, fuel).value)
    requires LookTy(env, Fill(ty, Quotes(filling)), defs, path, steps, fuel).Some?
    ensures LookTy(env, Fill(ty, args), defs, path, steps', fuel)
         == LookTy(env, Fill(ty, Quotes(filling)), defs, path, steps, fuel)
    decreases steps, |path|
  {
    steps' := steps;
    match ty
    case Node(_, members) =>
      if path != [] {
        steps' := DocsToArguments(env, defs, members[path[0]], args, filling, path[1..], steps, fuel);
      }
    case Param(at) =>
      if at < |args| {
        steps' :| LookTy(env, args[at], defs, path, steps', fuel) == Look(filling[at], defs, path, fuel);
      }
    case Named(name, inner) =>
      OpenedUnderFill(env, name, inner, args);
      OpenedUnderFill(env, name, inner, Quotes(filling));
      steps' := DocsToArguments(env, defs, Opened(env, name, inner), args, filling, path, steps - 1, fuel);
      steps' := steps' + 1;
    case Quoted(_) =>
  }

  ghost predicate Shows(env: Env, ty: Ty, defs: map<string, Doc>, path: seq<nat>, fuel: nat, seen: Seen) {
    exists steps: nat :: LookTy(env, ty, defs, path, steps, fuel) == Some(seen)
  }

  // ----- a described type and its document say the same -----

  /** The body a hoisted key stands for, and that its definition describes it. */
  lemma TheDefinition(env: Env, defs: map<string, Doc>, told: Told, name: string,
      filling: seq<Doc>) returns (nested: nat)
    requires TellsApart(env, told.fillings) && Complete(env, defs, told)
    requires name in env.declared && |filling| == env.declared[name].parameters && filling in told.fillings
    requires Key(env, name, filling) in defs
    ensures Describes(env, told, nested, defs[Key(env, name, filling)], Instance(env, name, filling))
  {
    var key := Key(env, name, filling);
    assert Defines(env, told, key, defs[key]);
    var name', filling', depth: nat :| DefinesAt(env, told, key, defs[key], name', filling', depth);
    KeysAreDistinct(env, told.fillings, name, filling, name', filling');
    nested := depth;
  }

  lemma SaysThrough(defs: map<string, Doc>, key: string, path: seq<nat>, seen: Seen)
    requires key in defs && Says(defs[key], defs, path, seen)
    ensures Says(Reference(key), defs, path, seen)
  {
    var fuel: nat :| Look(defs[key], defs, path, fuel) == Some(seen);
    assert Look(Reference(key), defs, path, fuel + 1) == Some(seen);
  }

  lemma LookThrough(defs: map<string, Doc>, key: string, path: seq<nat>, fuel: nat, seen: Seen)
    requires key in defs && Look(Reference(key), defs, path, fuel) == Some(seen)
    ensures fuel > 0 && Look(defs[key], defs, path, fuel - 1) == Some(seen)
  {
  }

  lemma SaysBelow(doc: Doc, defs: map<string, Doc>, path: seq<nat>, seen: Seen)
    requires doc.Written? && path != [] && path[0] < |doc.members|
    requires Says(doc.members[path[0]], defs, path[1..], seen)
    ensures Says(doc, defs, path, seen)
  {
    var fuel: nat :| Look(doc.members[path[0]], defs, path[1..], fuel) == Some(seen);
    assert Look(doc, defs, path, fuel) == Some(seen);
  }

  lemma {:induction false} TypeToDoc(env: Env, defs: map<string, Doc>, told: Told, nested: nat, doc: Doc, ty: Ty,
      path: seq<nat>, steps: nat, fuel: nat, seen: Seen)
    requires TellsApart(env, told.fillings) && Complete(env, defs, told)
    requires Describes(env, told, nested, doc, ty)
    requires LookTy(env, ty, defs, path, steps, fuel) == Some(seen)
    ensures Says(doc, defs, path, seen)
    decreases steps, ty, 2
  {
    match ty
    case Quoted(_) =>
    case Param(_) =>
    case Node(_, members) =>
      if path == [] {
        assert Look(doc, defs, path, 0) == Some(seen);
      } else {
        TypeToDoc(env, defs, told, nested, doc.members[path[0]], members[path[0]], path[1..], steps, fuel, seen);
        SaysBelow(doc, defs, path, seen);
      }
    case Named(name, args) =>
      var filling :| DescribesAt(env, told, nested, doc, ty, filling);
      ArgumentsSay(env, defs, told, nested, doc, ty, filling, steps - 1, fuel);
      var fuel' := ArgumentsToDocs(env, defs, env.declared[name].body, BoundTypes(|filling|, args), filling, path,
        steps - 1, fuel);
      NamedToDoc(env, defs, told, nested, doc, ty, filling, path, steps - 1, fuel', seen);
  }

  lemma {:induction false} ArgumentsSay(env: Env, defs: map<string, Doc>, told: Told, nested: nat, doc: Doc, ty: Ty,
      filling: seq<Doc>,
      steps: nat, fuel: nat)
    requires TellsApart(env, told.fillings) && Complete(env, defs, told)
    requires DescribesAt(env, told, nested, doc, ty, filling)
    ensures var bound := BoundTypes(|filling|, ty.arguments);
      forall i, at: seq<nat>, used: nat ::
        0 <= i < |bound| && used <= steps && LookTy(env, bound[i], defs, at, used, fuel).Some? ==>
          Says(filling[i], defs, at, LookTy(env, bound[i], defs, at, used, fuel).value)
    decreases steps + 1, ty, 0
  {
    var bound := BoundTypes(|filling|, ty.arguments);
    forall i, at: seq<nat>, used: nat |
      0 <= i < |bound| && used <= steps && LookTy(env, bound[i], defs, at, used, fuel).Some?
      ensures Says(filling[i], defs, at, LookTy(env, bound[i], defs, at, used, fuel).value)
    {
      var seen := LookTy(env, bound[i], defs, at, used, fuel).value;
      if i < |ty.arguments| {
        TypeToDoc(env, defs, told, nested, filling[i], ty.arguments[i], at, used, fuel, seen);
      } else {
        assert Look(PERMISSIVE, defs, at, 0) == Some(seen);
      }
    }
  }

  /** The step of a name, once its arguments are the documents written for them. */
  lemma {:induction false} NamedToDoc(env: Env, defs: map<string, Doc>, told: Told, nested: nat, doc: Doc, ty: Ty,
      filling: seq<Doc>,
      path: seq<nat>, steps: nat, fuel: nat, seen: Seen)
    requires TellsApart(env, told.fillings) && Complete(env, defs, told)
    requires DescribesAt(env, told, nested, doc, ty, filling)
    requires LookTy(env, Instance(env, ty.name, filling), defs, path, steps, fuel) == Some(seen)
    ensures Says(doc, defs, path, seen)
    decreases steps + 1, ty, 1
  {
    var body := Instance(env, ty.name, filling);
    var key := Key(env, ty.name, filling);
    if RefersTo(env, told, doc, ty.name, filling) {
      var depth := TheDefinition(env, defs, told, ty.name, filling);
      TypeToDoc(env, defs, told, depth, defs[key], body, path, steps, fuel, seen);
      SaysThrough(defs, key, path, seen);
    } else {
      TypeToDoc(env, defs, told, nested - 1, doc, body, path, steps, fuel, seen);
    }
  }

  lemma {:induction false} DocToType(env: Env, defs: map<string, Doc>, told: Told, nested: nat, doc: Doc, ty: Ty,
      path: seq<nat>, fuel: nat, seen: Seen)
    requires TellsApart(env, told.fillings) && Complete(env, defs, told)
    requires Describes(env, told, nested, doc, ty)
    requires Look(doc, defs, path, fuel) == Some(seen)
    ensures Shows(env, ty, defs, path, fuel, seen)
    decreases fuel, nested, ty, 1
  {
    match ty
    case Quoted(_) => assert LookTy(env, ty, defs, path, 0, fuel) == Some(seen);
    case Param(_) =>
    case Node(_, members) =>
      if path == [] {
        assert LookTy(env, ty, defs, path, 0, fuel) == Some(seen);
      } else {
        DocToType(env, defs, told, nested, doc.members[path[0]], members[path[0]], path[1..], fuel, seen);
        var steps: nat :| LookTy(env, members[path[0]], defs, path[1..], steps, fuel) == Some(seen);
        assert LookTy(env, ty, defs, path, steps, fuel) == Some(seen);
      }
    case Named(name, args) =>
      var filling :| DescribesAt(env, told, nested, doc, ty, filling);
      var left := BodyShows(env, defs, told, nested, doc, ty, filling, path, fuel, seen);
      ArgumentsShow(env, defs, told, nested, doc, ty, filling, left);
      NamedToType(env, defs, ty, filling, path, left, fuel, seen);
  }

  lemma {:induction false} BodyShows(env: Env, defs: map<string, Doc>, told: Told, nested: nat, doc: Doc, ty: Ty,
      filling: seq<Doc>,
      path: seq<nat>, fuel: nat, seen: Seen)
    returns (left: nat)
    requires TellsApart(env, told.fillings) && Complete(env, defs, told)
    requires DescribesAt(env, told, nested, doc, ty, filling)
    requires Look(doc, defs, path, fuel) == Some(seen)
    ensures left <= fuel
    ensures Shows(env, Instance(env, ty.name, filling), defs, path, left, seen)
    decreases fuel, nested, ty, 0
  {
    var body, key := Instance(env, ty.name, filling), Key(env, ty.name, filling);
    if RefersTo(env, told, doc, ty.name, filling) {
      var depth := TheDefinition(env, defs, told, ty.name, filling);
      LookThrough(defs, key, path, fuel, seen);
      left := fuel - 1;
      DocToType(env, defs, told, depth, defs[key], body, path, left, seen);
    } else {
      left := fuel;
      DocToType(env, defs, told, nested - 1, doc, body, path, left, seen);
    }
  }

  lemma {:induction false} ArgumentsShow(env: Env, defs: map<string, Doc>, told: Told, nested: nat, doc: Doc, ty: Ty,
      filling: seq<Doc>, fuel: nat)
    requires TellsApart(env, told.fillings) && Complete(env, defs, told)
    requires DescribesAt(env, told, nested, doc, ty, filling)
    ensures var bound := BoundTypes(|filling|, ty.arguments);
      forall i, at: seq<nat> :: 0 <= i < |bound| && Look(filling[i], defs, at, fuel).Some? ==>
        Shows(env, bound[i], defs, at, fuel, Look(filling[i], defs, at, fuel).value)
    decreases fuel, nested, ty, 0
  {
    var bound := BoundTypes(|filling|, ty.arguments);
    forall i, at: seq<nat> | 0 <= i < |bound| && Look(filling[i], defs, at, fuel).Some?
      ensures Shows(env, bound[i], defs, at, fuel, Look(filling[i], defs, at, fuel).value)
    {
      var seen := Look(filling[i], defs, at, fuel).value;
      if i < |ty.arguments| {
        DocToType(env, defs, told, nested, filling[i], ty.arguments[i], at, fuel, seen);
      } else {
        assert LookTy(env, bound[i], defs, at, 0, fuel) == Some(seen);
      }
    }
  }

  /** The step of a name, once the documents of its filling are the arguments again. */
  lemma NamedToType(env: Env, defs: map<string, Doc>, ty: Ty, filling: seq<Doc>, path: seq<nat>, left: nat, fuel: nat,
      seen: Seen)
    requires ty.Named? && ty.name in env.declared && |filling| == env.declared[ty.name].parameters && left <= fuel
    requires Shows(env, Instance(env, ty.name, filling), defs, path, left, seen)
    requires var bound := BoundTypes(|filling|, ty.arguments);
      forall i, at: seq<nat> :: 0 <= i < |bound| && Look(filling[i], defs, at, left).Some? ==>
        Shows(env, bound[i], defs, at, left, Look(filling[i], defs, at, left).value)
    ensures Shows(env, ty, defs, path, fuel, seen)
  {
    var steps: nat :| LookTy(env, Instance(env, ty.name, filling), defs, path, steps, left) == Some(seen);
    steps := DocsToArguments(env, defs, env.declared[ty.name].body, BoundTypes(|filling|, ty.arguments), filling,
      path, steps, left);
    LookTyWithMore(env, Opened(env, ty.name, ty.arguments), defs, path, steps, left, fuel);
    assert LookTy(env, ty, defs, path, steps + 1, fuel) == Some(seen);
  }

  // ----- types that quote no document -----

  predicate PlainAll(env: Env, tys: seq<Ty>) {
    forall i :: 0 <= i < |tys| ==> Plain(env, tys[i])
  }

  lemma {:induction false} FillIsPlain(env: Env, ty: Ty, args: seq<Ty>)
    requires Plain(env, ty) && PlainAll(env, args)
    ensures Plain(env, Fill(ty, args))
  {
    match ty
    case Node(_, members) =>
      forall i | 0 <= i < |members| ensures Plain(env, Fill(members[i], args)) { FillIsPlain(env, members[i], args); }
    case Named(_, inner) =>
      forall i | 0 <= i < |inner| ensures Plain(env, Fill(inner[i], args)) { FillIsPlain(env, inner[i], args); }
    case Param(_) =>
    case Quoted(_) =>
  }

  /** A type that quotes no document means the same whatever is hoisted. */
  lemma {:induction false} PlainIgnoresDefs(env: Env, ty: Ty, defs: map<string, Doc>, path: seq<nat>, steps: nat,
      fuel: nat)
    requires WellFormed(env) && Plain(env, ty)
    ensures LookTy(env, ty, defs, path, steps, fuel) == LookTy(env, ty, map[], path, steps, 0)
    decreases steps, |path|
  {
    match ty
    case Node(_, members) =>
      if path != [] && path[0] < |members| {
        PlainIgnoresDefs(env, members[path[0]], defs, path[1..], steps, fuel);
      }
    case Named(name, args) =>
      if steps > 0 {
        FillIsPlain(env, env.declared[name].body, BoundTypes(env.declared[name].parameters, args));
        PlainIgnoresDefs(env, Opened(env, name, args), defs, path, steps - 1, fuel);
      }
    case Param(_) =>
    case Quoted(_) =>
  }

  /** The document written for a type, over definitions each written for the name and filling its
      key stands for, says at every path what the type means there, and nothing else. */
  lemma {:induction false} HoistingKeepsMeaning(env: Env, defs: map<string, Doc>, told: Told, nested: nat, doc: Doc,
      ty: Ty)
    requires WellFormed(env) && TellsApart(env, told.fillings) && Complete(env, defs, told)
    requires Plain(env, ty) && Describes(env, told, nested, doc, ty)
    ensures forall path: seq<nat>, seen :: Says(doc, defs, path, seen) <==> Means(env, ty, path, seen)
  {
    forall path: seq<nat>, seen ensures Says(doc, defs, path, seen) <==> Means(env, ty, path, seen) {
      if Says(doc, defs, path, seen) {
        var fuel: nat :| Look(doc, defs, path, fuel) == Some(seen);
        DocToType(env, defs, told, nested, doc, ty, path, fuel, seen);
        var steps: nat :| LookTy(env, ty, defs, path, steps, fuel) == Some(seen);
        PlainIgnoresDefs(env, ty, defs, path, steps, fuel);
      }
      if Means(env, ty, path, seen) {
        var steps: nat :| LookTy(env, ty, map[], path, steps, 0) == Some(seen);
        PlainIgnoresDefs(env, ty, defs, path, steps, 0);
        TypeToDoc(env, defs, told, nested, doc, ty, path, steps, 0, seen);
      }
    }
  }

  /** A definition may itself be a reference: of a struct of one slot over a type that names both, the
      document refers to the one's definition, which is a reference to the other's. */
  lemma ADefinitionMayBeAReference(labelled: Doc -> Option<string>, digest: seq<Doc> -> string)
    ensures var env := Env(
        map["Slot" := Declaration(0, Named("Node", [])),
          "Node" := Declaration(0, Node("{}", [Named("Slot", []), Named("Node", [])]))],
        labelled, digest);
      var defs := map["Slot" := Reference("Node"), "Node" := Written("{}", [Reference("Slot"), Reference("Node")])];
      var told := Told(defs.Keys, {[]});
      && TellsApart(Env(env.declared, labelled, filling => "0000000000000000"), told.fillings)
      && Complete(env, defs, told) && Describes(env, told, 0, Reference("Slot"), Named("Slot", []))
  {
    var env := Env(
      map["Slot" := Declaration(0, Named("Node", [])),
        "Node" := Declaration(0, Node("{}", [Named("Slot", []), Named("Node", [])]))],
      labelled, digest);
    var defs := map["Slot" := Reference("Node"), "Node" := Written("{}", [Reference("Slot"), Reference("Node")])];
    var told := Told(defs.Keys, {[]});
    forall name | name in env.declared ensures Describes(env, told, 0, Reference(name), Named(name, [])) {
      assert DescribesAt(env, told, 0, Reference(name), Named(name, []), []);
    }
    assert Instance(env, "Slot", []) == Named("Node", []);
    assert Instance(env, "Node", []) == Node("{}", [Named("Slot", []), Named("Node", [])]);
    assert DefinesAt(env, told, "Slot", defs["Slot"], "Slot", [], 0);
    assert DefinesAt(env, told, "Node", defs["Node"], "Node", [], 0);
  }

  /** Each of `names` is declared as another of them and nothing more, as one boxed type over another is. */
  ghost predicate NameOneAnother(env: Env, names: set<string>) {
    forall name :: name in names ==>
      && name in env.declared && '.' !in name && env.declared[name].parameters == 0
      && env.declared[name].body.Named? && env.declared[name].body.name in names
      && env.declared[name].body.arguments == []
  }

  /** Such a name can be described by nothing but a reference to the definition of one of them. */
  lemma {:induction false} NameIsReferred(env: Env, told: Told, names: set<string>, nested: nat, doc: Doc,
      name: string)
    requires NameOneAnother(env, names) && name in names
    requires Describes(env, told, nested, doc, Named(name, []))
    ensures doc.Reference? && doc.key in names && doc.key in told.keys
  {
    var filling: seq<Doc> :| DescribesAt(env, told, nested, doc, Named(name, []), filling);
    assert filling == [];
    if !RefersTo(env, told, doc, name, filling) {
      InstanceOfName(env, name);
      NameIsReferred(env, told, names, nested - 1, doc, env.declared[name].body.name);
    }
  }

  lemma InstanceOfName(env: Env, name: string)
    requires name in env.declared && env.declared[name].body.Named? && env.declared[name].body.arguments == []
    ensures Instance(env, name, []) == env.declared[name].body
  {
    assert Quotes([]) == [];
  }

  /** So wherever such a name is described over complete definitions, a definition is hoisted that is
      itself a reference. */
  lemma NamesAreHoistedAsReferences(env: Env, defs: map<string, Doc>, told: Told, names: set<string>, nested: nat,
      doc: Doc, name: string)
    requires NameOneAnother(env, names) && name in names && forall other :: other in env.declared ==> '.' !in other
    requires Complete(env, defs, told) && Describes(env, told, nested, doc, Named(name, []))
    ensures doc.Reference? && doc.key in defs && defs[doc.key].Reference?
  {
    NameIsReferred(env, told, names, nested, doc, name);
    assert Defines(env, told, doc.key, defs[doc.key]);
    var defined: string, filling: seq<Doc>, within: nat :|
      DefinesAt(env, told, doc.key, defs[doc.key], defined, filling, within);
    if filling != [] {
      KeyIsParted(env, defined, filling);
    }
    assert defined == doc.key;
    InstanceOfName(env, defined);
    NameIsReferred(env, told, names, within, defs[doc.key], env.declared[defined].body.name);
  }
}
