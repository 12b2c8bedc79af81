/** The type graph a JSON Schema document is written from, the documents themselves, and what each
    of them says: at every path, the keywords found there. */
module HoistingModel {
  import opened Wrappers

  /** A JSON Schema as it is written: the keywords of one level over the schemas nested in it, or a
      `$ref` into the hoisted definitions. */
  datatype Doc = Written(keywords: string, members: seq<Doc>) | Reference(key: string)

  /** What a declaration's body writes. `Quoted` is a document that already stands where a type
      stood: what a type parameter is bound to while a body is written. */
  datatype Ty =
    | Node(keywords: string, members: seq<Ty>)
    | Param(at: nat)
    | Named(name: string, arguments: seq<Ty>)
    | Quoted(document: Doc)

  datatype Declaration = Declaration(parameters: nat, body: Ty)

  /** The declared names, and the two readings a definition's key is built from: the label an
      argument is recognised by and the fingerprint of a whole filling. */
  datatype Env = Env(
    declared: map<string, Declaration>,
    labelled: Doc -> Option<string>,
    digest: seq<Doc> -> string)

  /** The empty schema, which an argument list too short for its parameters is filled up with. */
  const PERMISSIVE := Written("", [])

  /** How many digits a fingerprint is written with. */
  const DIGITS: nat := 16

  function Labels(env: Env, filling: seq<Doc>): seq<string> {
    if filling == [] then []
    else (match env.labelled(filling[0]) case Some(l) => [l] case None => []) + Labels(env, filling[1..])
  }

  function Joined(labels: seq<string>): string {
    if labels == [] then "" else if |labels| == 1 then labels[0] else labels[0] + "_" + Joined(labels[1..])
  }

  /** The key `name` is hoisted under at `filling`. */
  function Key(env: Env, name: string, filling: seq<Doc>): string {
    if name !in env.declared || env.declared[name].parameters == 0 then name
    else
      var labels := Labels(env, filling);
      if labels == [] then name + "." + env.digest(filling)
      else name + "." + Joined(labels) + "-" + env.digest(filling)
  }

  /** What the keys are trusted for over the fillings a document is written at: sixteen digits that
      tell each of those from the others, and names written without the `.` that parts a name from its
      filling. */
  ghost predicate TellsApart(env: Env, fillings: set<seq<Doc>>) {
    && (forall filling :: filling in fillings ==> |env.digest(filling)| == DIGITS)
    && (forall f, g :: f in fillings && g in fillings && env.digest(f) == env.digest(g) ==> f == g)
    && (forall name :: name in env.declared ==> '.' !in name)
  }

  /** One document per declared parameter, whatever the caller passed. */
  function Bound(parameters: nat, arguments: seq<Doc>): (filling: seq<Doc>) {
    seq(parameters, i requires 0 <= i < parameters => if i < |arguments| then arguments[i] else PERMISSIVE)
  }

  function BoundTypes(parameters: nat, arguments: seq<Ty>): (bound: seq<Ty>) {
    seq(parameters, i requires 0 <= i < parameters => if i < |arguments| then arguments[i] else Node("", []))
  }

  function Fill(ty: Ty, arguments: seq<Ty>): Ty {
    match ty
    case Node(keywords, members) =>
      Node(keywords, seq(|members|, i requires 0 <= i < |members| => Fill(members[i], arguments)))
    case Param(at) => if at < |arguments| then arguments[at] else Node("", [])
    case Named(name, args) =>
      Named(name, seq(|args|, i requires 0 <= i < |args| => Fill(args[i], arguments)))
    case Quoted(_) => ty
  }

  function Quotes(filling: seq<Doc>): seq<Ty> {
    seq(|filling|, i requires 0 <= i < |filling| => Quoted(filling[i]))
  }

  /** The body of `name` with its parameters bound to `filling`. */
  function Instance(env: Env, name: string, filling: seq<Doc>): Ty
    requires name in env.declared
  {
    Fill(env.declared[name].body, Quotes(filling))
  }

  /** Only declared names, and no document written in a type's place. */
  predicate Plain(env: Env, ty: Ty) {
    match ty
    case Node(_, members) => forall i :: 0 <= i < |members| ==> Plain(env, members[i])
    case Param(_) => true
    case Named(name, args) => name in env.declared && forall i :: 0 <= i < |args| ==> Plain(env, args[i])
    case Quoted(_) => false
  }

  predicate Closed(ty: Ty) {
    match ty
    case Node(_, members) => forall i :: 0 <= i < |members| ==> Closed(members[i])
    case Param(_) => false
    case Named(_, args) => forall i :: 0 <= i < |args| ==> Closed(args[i])
    case Quoted(_) => true
  }

  predicate WellFormed(env: Env) {
    forall name :: name in env.declared ==> Plain(env, env.declared[name].body)
  }

  // ----- what a document and a type say -----

  /** What stands at one place of a schema: its keywords and how many schemas it nests. */
  datatype Seen = Seen(keywords: string, width: nat)

  /** What stands at `path` of `doc`, following at most `fuel` references. */
  function Look(doc: Doc, defs: map<string, Doc>, path: seq<nat>, fuel: nat): Option<Seen>
    decreases fuel, |path|
  {
    match doc
    case Reference(key) =>
      if fuel == 0 || key !in defs then None else Look(defs[key], defs, path, fuel - 1)
    case Written(keywords, members) =>
      if path == [] then Some(Seen(keywords, |members|))
      else if path[0] < |members| then Look(members[path[0]], defs, path[1..], fuel)
      else None
  }

  /** What stands at `path` of `ty`, opening at most `steps` names, and `fuel` references of the
      documents quoted in it. */
  function LookTy(env: Env, ty: Ty, defs: map<string, Doc>, path: seq<nat>, steps: nat, fuel: nat): Option<Seen>
    decreases steps, |path|
  {
    match ty
    case Node(keywords, members) =>
      if path == [] then Some(Seen(keywords, |members|))
      else if path[0] < |members| then LookTy(env, members[path[0]], defs, path[1..], steps, fuel)
      else None
    case Param(_) => None
    case Named(name, args) =>
      if steps == 0 || name !in env.declared then None
      else LookTy(env, Opened(env, name, args), defs, path, steps - 1, fuel)
    case Quoted(doc) => Look(doc, defs, path, fuel)
  }

  /** The body `name` stands for where it is written with `arguments`. */
  function Opened(env: Env, name: string, arguments: seq<Ty>): Ty
    requires name in env.declared
  {
    Fill(env.declared[name].body, BoundTypes(env.declared[name].parameters, arguments))
  }

  ghost predicate Says(doc: Doc, defs: map<string, Doc>, path: seq<nat>, seen: Seen) {
    exists fuel: nat :: Look(doc, defs, path, fuel) == Some(seen)
  }

  ghost predicate Means(env: Env, ty: Ty, path: seq<nat>, seen: Seen) {
    exists steps: nat :: LookTy(env, ty, map[], path, steps, 0) == Some(seen)
  }
}
