/** Placeholder extraction and substitution (httui-core/src/references.rs). */
module References {
  import opened Text
  import opened Json

  type Lookup = string -> Option<string>

  /** The text of a placeholder as it stands in a note. */
  function Pattern(name: string): string {
    "{{" + name + "}}"
  }

  // ─── Extraction ───────────────────────────────────────────────────

  datatype Token = Token(before: string, name: string, rest: string)

  /** The first opening pair, up to the first closing pair after it. */
  function FirstToken(s: string): (t: Option<Token>)
    ensures t.Some? ==> |t.value.rest| < |s|
  {
    match SplitOnce(s, "{{")
    case None => None
    case Some((before, inside)) =>
      match SplitOnce(inside, "}}")
      case None => None
      case Some((name, rest)) => Some(Token(before, name, rest))
  }

  lemma TokenCuts(s: string)
    requires FirstToken(s).Some?
    ensures var t := FirstToken(s).value; s == t.before + Pattern(t.name) + t.rest
  {
    var t := FirstToken(s).value;
    SplitOnceCuts(s, "{{");
    SplitOnceCuts(SplitOnce(s, "{{").value.1, "}}");
    Regroup(t.before, "{{", t.name, "}}", t.rest);
  }

  function Extract(s: string): seq<string>
    decreases |s|
  {
    match FirstToken(s)
    case None => []
    case Some(t) => (if t.name == "" then [] else [t.name]) + Extract(t.rest)
  }

  method ExtractFromString(s: string, earlier: seq<string>) returns (out: seq<string>)
    ensures out == earlier + Extract(s)
  {
    out := earlier;
    var start := 0;
    assert s[start..] == s;
    while true
      invariant start <= |s|
      invariant out + Extract(s[start..]) == earlier + Extract(s)
      decreases |s| - start
    {
      ghost var tail := s[start..];
      var open := Find(s[start..], "{{");
      if open.None? { break; }
      var absOpen := start + open.value + 2;
      assert tail[open.value + 2..] == s[absOpen..];
      var close := Find(s[absOpen..], "}}");
      if close.None? { break; }
      var inner := s[absOpen..absOpen + close.value];
      assert inner == s[absOpen..][..close.value];
      start := absOpen + close.value + 2;
      assert s[absOpen..][close.value + 2..] == s[start..];
      ghost var found := if inner == "" then [] else [inner];
      assert Extract(tail) == found + Extract(s[start..]);
      AppendAssoc(out, found, Extract(s[start..]));
      ghost var before := out;
      if inner != "" { out := out + [inner]; }
      assert out == before + found;
    }
  }

  /** Every placeholder in the strings of a JSON value. */
  function Placeholders(v: Value): set<string> {
    match v
    case Str(s) => set p | p in Extract(s)
    case Array(items) => set i, p | 0 <= i < |items| && p in Placeholders(items[i]) :: p
    case Object(fields) => set k, p | k in fields && p in Placeholders(fields[k]) :: p
    case _ => {}
  }

  function ExtractPlaceholders(v: Value): seq<string> {
    SortedElements(Placeholders(v))
  }

  // ─── Lookup ───────────────────────────────────────────────────────

  predicate IsBlockReference(placeholder: string) {
    '.' in placeholder
  }

  /** The part before the first dot. */
  function ExtractAlias(placeholder: string): (alias: string)
    ensures |alias| <= |placeholder|
  {
    match FindChar(placeholder, '.')
    case None => placeholder
    case Some(i) => placeholder[..i]
  }

  const DANGEROUS_KEYS: set<string> := {"__proto__", "constructor", "prototype"}

  function Navigate(value: Value, parts: seq<string>): Option<Value> {
    if parts == [] then Some(value)
    else if parts[0] == "" then Navigate(value, parts[1..])
    else if parts[0] in DANGEROUS_KEYS then None
    else
      var next := match ParseU64(parts[0])
                  case Some(index) => value.Item(index)
                  case None => value.Get(parts[0]);
      if next.None? then None else Navigate(next.value, parts[1..])
  }

  method NavigateJson(value: Value, path: string) returns (r: Option<Value>)
    ensures r == Navigate(value, Split(path, '.'))
  {
    var parts := Split(path, '.');
    var current := value;
    for i := 0 to |parts|
      invariant Navigate(current, parts[i..]) == Navigate(value, parts)
    {
      var part := parts[i];
      assert parts[i..][1..] == parts[i + 1..];
      if part == "" { continue; }
      if part in DANGEROUS_KEYS { return None; }
      var index := ParseU64(part);
      var next := if index.Some? then current.Item(index.value) else current.Get(part);
      if next.None? { return None; }
      current := next.value;
    }
    r := Some(current);
  }

  function TrimStartDots(s: string): string {
    if s != "" && s[0] == '.' then TrimStartDots(s[1..]) else s
  }

  /** `render` prints a JSON value that is neither a string nor null. */
  function ValueToString(v: Value, render: Value -> string): string {
    match v
    case Str(s) => s
    case Null => ""
    case _ => render(v)
  }

  /** The path behind the alias, as it is navigated. */
  function PathParts(placeholder: string): seq<string> {
    var rest := TrimStartDots(placeholder[|ExtractAlias(placeholder)|..]);
    if rest == "" then [] else Split(rest, '.')
  }

  function ResolveBlockRef(placeholder: string, results: map<string, Value>, render: Value -> string): Option<string> {
    var alias := ExtractAlias(placeholder);
    if alias !in results then None
    else
      var value := Navigate(results[alias], PathParts(placeholder));
      if value.None? then None else Some(ValueToString(value.value, render))
  }

  /** What `resolve_string` replaces a placeholder by, if anything. */
  function Replacement(placeholder: string, results: map<string, Value>, vars: map<string, string>, render: Value -> string): Option<string> {
    if IsBlockReference(placeholder) then ResolveBlockRef(placeholder, results, render)
    else if placeholder in vars then Some(vars[placeholder]) else None
  }

  function LookupIn(results: map<string, Value>, vars: map<string, string>, render: Value -> string): Lookup {
    placeholder => Replacement(placeholder, results, vars, render)
  }

  /** A placeholder reads one entry of the results: its own alias. */
  lemma ReplacementReadsAlias(p: string, results: map<string, Value>, others: map<string, Value>, vars: map<string, string>, render: Value -> string)
    requires IsBlockReference(p) ==>
               var a := ExtractAlias(p);
               (a in results <==> a in others) && (a in results ==> results[a] == others[a])
    ensures Replacement(p, results, vars, render) == Replacement(p, others, vars, render)
  {
  }

  // ─── Substitution ─────────────────────────────────────────────────

  /** The loop of `resolve_string`: one `replace` per placeholder, on the text so far. */
  function ReplaceEach(text: string, placeholders: seq<string>, look: Lookup): string
    decreases |placeholders|
  {
    if placeholders == [] then text
    else
      var p := placeholders[0];
      ReplaceEach(if look(p).Some? then Replace(text, Pattern(p), look(p).value) else text, placeholders[1..], look)
  }

  function ResolveText(s: string, look: Lookup): string {
    ReplaceEach(s, Extract(s), look)
  }

  method ResolveString(s: string, look: Lookup) returns (result: string)
    ensures result == ResolveText(s, look)
  {
    result := s;
    var placeholders := ExtractFromString(s, []);
    for i := 0 to |placeholders|
      invariant ReplaceEach(result, placeholders[i..], look) == ReplaceEach(s, placeholders, look)
    {
      var placeholder := placeholders[i];
      assert placeholders[i..][1..] == placeholders[i + 1..];
      var replacement := look(placeholder);
      if replacement.Some? {
        result := Replace(result, Pattern(placeholder), replacement.value);
      }
    }
  }

  function ResolveValue(v: Value, look: Lookup): Value {
    match v
    case Str(s) => Str(ResolveText(s, look))
    case Array(items) => Array(seq(|items|, i requires 0 <= i < |items| => ResolveValue(items[i], look)))
    case Object(fields) => Object(map k | k in fields :: ResolveValue(fields[k], look))
    case _ => v
  }

  predicate AgreeOn(ps: set<string>, f: Lookup, g: Lookup) {
    forall p | p in ps :: f(p) == g(p)
  }

  lemma {:induction false} ReplaceEachAgrees(text: string, ps: seq<string>, f: Lookup, g: Lookup)
    requires forall p | p in ps :: f(p) == g(p)
    ensures ReplaceEach(text, ps, f) == ReplaceEach(text, ps, g)
    decreases |ps|
  {
    if ps != [] {
      assert ps[0] in ps;
      var next := if f(ps[0]).Some? then Replace(text, Pattern(ps[0]), f(ps[0]).value) else text;
      ReplaceEachAgrees(next, ps[1..], f, g);
    }
  }

  /** Resolution reads nothing but the placeholders of the value itself. */
  lemma {:induction false} ResolveReadsPlaceholdersOnly(v: Value, f: Lookup, g: Lookup)
    requires AgreeOn(Placeholders(v), f, g)
    ensures ResolveValue(v, f) == ResolveValue(v, g)
  {
    match v
    case Str(s) => ReplaceEachAgrees(s, Extract(s), f, g);
    case Array(items) =>
      forall i | 0 <= i < |items| ensures ResolveValue(items[i], f) == ResolveValue(items[i], g) {
        assert Placeholders(items[i]) <= Placeholders(v);
        ResolveReadsPlaceholdersOnly(items[i], f, g);
      }
      assert ResolveValue(v, f).items == ResolveValue(v, g).items;
    case Object(fields) =>
      forall k | k in fields ensures ResolveValue(fields[k], f) == ResolveValue(fields[k], g) {
        assert Placeholders(fields[k]) <= Placeholders(v);
        ResolveReadsPlaceholdersOnly(fields[k], f, g);
      }
    case _ =>
  }
}
