/** Recursive redaction of decoded JSON, for any choice of sensitive keys, and the two redactors the service has. */
module Redaction {
  import opened Wrappers
  import opened RedactionKeys

  datatype Json =
    | Null
    | Bool(b: bool)
    | Number(n: real)
    | Text(s: string)
    | Array(items: seq<Json>)
    | Object(fields: map<string, Json>)

  const MARKER := Text("[REDACTED]")

  type Keys = string -> bool

  function Redact(sensitive: Keys, value: Json): Json
    decreases value
  {
    if value.Object? then
      Object(map key | key in value.fields :: if sensitive(key) then MARKER else Redact(sensitive, value.fields[key]))
    else if value.Array? then
      Array(seq(|value.items|, i requires 0 <= i < |value.items| => Redact(sensitive, value.items[i])))
    else
      value
  }

  method RedactJSONValue(sensitive: Keys, value: Json) returns (result: Json)
    ensures result == Redact(sensitive, value)
    decreases value
  {
    if value.Object? {
      var fields := map[];
      var rest := value.fields.Keys;
      while rest != {}
        invariant rest <= value.fields.Keys && fields.Keys == value.fields.Keys - rest
        invariant forall key :: key in fields ==> fields[key] == Redact(sensitive, value).fields[key]
      {
        var key :| key in rest;
        rest := rest - {key};
        if sensitive(key) {
          fields := fields[key := MARKER];
        } else {
          var nested := RedactJSONValue(sensitive, value.fields[key]);
          fields := fields[key := nested];
        }
      }
      assert fields == Redact(sensitive, value).fields;
      return Object(fields);
    } else if value.Array? {
      var items := [];
      for i := 0 to |value.items|
        invariant |items| == i && forall k :: 0 <= k < i ==> items[k] == Redact(sensitive, value.items[k])
      {
        var nested := RedactJSONValue(sensitive, value.items[i]);
        items := items + [nested];
      }
      assert items == Redact(sensitive, value).items;
      return Array(items);
    } else {
      return value;
    }
  }

  // ---- composing redactors ----

  /** Redacting for one set of keys and then another is redacting once for their union. */
  lemma {:induction false} RedactorsUnite(p: Keys, q: Keys, both: Keys, value: Json)
    requires forall key :: both(key) <==> p(key) || q(key)
    ensures Redact(p, Redact(q, value)) == Redact(both, value)
    decreases value
  {
    if value.Object? {
      forall key | key in value.fields
        ensures Redact(p, Redact(q, value)).fields[key] == Redact(both, value).fields[key]
      {
        RedactorsUnite(p, q, both, value.fields[key]);
      }
      assert Redact(p, Redact(q, value)).fields == Redact(both, value).fields;
    } else if value.Array? {
      forall i | 0 <= i < |value.items|
        ensures Redact(p, Redact(q, value)).items[i] == Redact(both, value).items[i]
      {
        RedactorsUnite(p, q, both, value.items[i]);
      }
      assert Redact(p, Redact(q, value)).items == Redact(both, value).items;
    }
  }

  function KeysOf(u: Unicode, rule: Rule): Keys {
    key => Sensitive(u, rule, key)
  }

  lemma RedactIsIdempotent(u: Unicode, rule: Rule, value: Json)
    ensures Redact(KeysOf(u, rule), Redact(KeysOf(u, rule), value)) == Redact(KeysOf(u, rule), value)
  {
    RedactorsUnite(KeysOf(u, rule), KeysOf(u, rule), KeysOf(u, rule), value);
  }

  /** In either order the two redactors together do what the request redactor does alone. */
  lemma RequestRedactorAbsorbsOutbound(u: Unicode, value: Json)
    ensures var outbound, request := KeysOf(u, Outbound), KeysOf(u, RequestAudit);
            && Redact(outbound, Redact(request, value)) == Redact(request, value)
            && Redact(request, Redact(outbound, value)) == Redact(request, value)
  {
    var outbound, request := KeysOf(u, Outbound), KeysOf(u, RequestAudit);
    forall key
      ensures outbound(key) ==> request(key)
    {
      RequestRuleHidesMore(u, key);
    }
    RedactorsUnite(outbound, request, request, value);
    RedactorsUnite(request, outbound, request, value);
  }

  // ---- the same, said about the paths into a tree ----

  datatype Step = Key(key: string) | Index(index: nat)

  type Path = seq<Step>

  function Child(value: Json, step: Step): Option<Json> {
    if step.Key? && value.Object? && step.key in value.fields then Some(value.fields[step.key])
    else if step.Index? && value.Array? && step.index < |value.items| then Some(value.items[step.index])
    else None
  }

  /** One node of a tree without what is below it. */
  datatype Node = Leaf(value: Json) | ArrayOf(length: nat) | ObjectOf(keys: set<string>)

  function NodeOf(value: Json): Node {
    if value.Object? then ObjectOf(value.fields.Keys)
    else if value.Array? then ArrayOf(|value.items|)
    else Leaf(value)
  }

  function NodeAt(value: Json, path: Path): Option<Node>
    decreases |path|
  {
    if path == [] then Some(NodeOf(value))
    else
      var child := Child(value, path[0]);
      if child.None? then None else NodeAt(child.value, path[1..])
  }

  predicate Hides(sensitive: Keys, step: Step) {
    step.Key? && sensitive(step.key)
  }

  /** No step of the path goes through a sensitive key. */
  predicate InTheOpen(sensitive: Keys, path: Path) {
    forall i :: 0 <= i < |path| ==> !Hides(sensitive, path[i])
  }

  /** What must be found at a path: the node itself, the marker right below a sensitive key, nothing further down. */
  function Shown(sensitive: Keys, value: Json, path: Path): Option<Node> {
    if InTheOpen(sensitive, path) then NodeAt(value, path)
    else if InTheOpen(sensitive, path[..|path| - 1]) && NodeAt(value, path).Some? then Some(Leaf(MARKER))
    else None
  }

  /** Keys, array lengths and open leaves are kept; a sensitive key holds the marker and nothing else. */
  lemma {:induction false} RedactShowsExactly(sensitive: Keys, value: Json, path: Path)
    ensures NodeAt(Redact(sensitive, value), path) == Shown(sensitive, value, path)
    decreases |path|
  {
    if path == [] {
      if value.Object? {
        assert Redact(sensitive, value).fields.Keys == value.fields.Keys;
      }
    } else {
      var step, rest, hidden := path[0], path[1..], Redact(sensitive, value);
      var child := Child(value, step);
      if Hides(sensitive, step) {
        assert Child(hidden, step) == if child.Some? then Some(MARKER) else None;
        if rest == [] {
          assert path[..|path| - 1] == [];
          assert NodeAt(MARKER, rest) == Some(Leaf(MARKER));
          assert child.Some? ==> NodeAt(child.value, rest).Some?;
        } else {
          assert path[..|path| - 1][0] == step;
          assert Child(MARKER, rest[0]) == None;
        }
      } else if child.Some? {
        assert Child(hidden, step) == Some(Redact(sensitive, child.value));
        RedactShowsExactly(sensitive, child.value, rest);
        OpenStep(sensitive, path);
      } else {
        assert Child(hidden, step) == None;
      }
    }
  }

  lemma OpenStep(sensitive: Keys, path: Path)
    requires path != [] && !Hides(sensitive, path[0])
    ensures InTheOpen(sensitive, path) <==> InTheOpen(sensitive, path[1..])
    ensures |path| > 1 ==>
      (InTheOpen(sensitive, path[..|path| - 1]) <==> InTheOpen(sensitive, path[1..][..|path[1..]| - 1]))
  {
    assert forall i :: 0 < i < |path| ==> path[i] == path[1..][i - 1];
    if |path| > 1 {
      var short, tail := path[..|path| - 1], path[1..][..|path[1..]| - 1];
      assert forall i :: 0 < i < |short| ==> short[i] == tail[i - 1];
    }
  }

  lemma ChildSteps(value: Json, step: Step, path: Path)
    ensures NodeAt(value, [step] + path) ==
            if Child(value, step).Some? then NodeAt(Child(value, step).value, path) else None
  {
    assert ([step] + path)[1..] == path;
  }

  ghost predicate SameEverywhere(a: Json, b: Json) {
    forall path: Path :: NodeAt(a, path) == NodeAt(b, path)
  }

  lemma ChildrenAreTheSame(a: Json, b: Json, step: Step)
    requires SameEverywhere(a, b)
    ensures Child(a, step).Some? <==> Child(b, step).Some?
    ensures Child(a, step).Some? ==> SameEverywhere(Child(a, step).value, Child(b, step).value)
  {
    ChildSteps(a, step, []);
    ChildSteps(b, step, []);
    assert NodeAt(a, [step] + []) == NodeAt(b, [step] + []);
    if Child(a, step).Some? {
      forall path: Path
        ensures NodeAt(Child(a, step).value, path) == NodeAt(Child(b, step).value, path)
      {
        ChildSteps(a, step, path);
        ChildSteps(b, step, path);
        assert NodeAt(a, [step] + path) == NodeAt(b, [step] + path);
      }
    }
  }

  /** The nodes at all paths determine a tree, so RedactShowsExactly leaves the redactor no freedom. */
  lemma {:induction false} NodesDetermineTree(a: Json, b: Json)
    requires SameEverywhere(a, b)
    ensures a == b
    decreases a
  {
    assert NodeAt(a, []) == NodeAt(b, []);
    assert NodeOf(a) == NodeOf(b);
    if a.Object? {
      forall key | key in a.fields
        ensures a.fields[key] == b.fields[key]
      {
        ChildrenAreTheSame(a, b, Key(key));
        NodesDetermineTree(a.fields[key], b.fields[key]);
      }
      assert a.fields == b.fields;
    } else if a.Array? {
      forall i | 0 <= i < |a.items|
        ensures a.items[i] == b.items[i]
      {
        ChildrenAreTheSame(a, b, Index(i));
        NodesDetermineTree(a.items[i], b.items[i]);
      }
      assert a.items == b.items;
    }
  }

  /** The two trees agree on everything not below a sensitive key. */
  ghost predicate SameInTheOpen(sensitive: Keys, a: Json, b: Json) {
    forall path: Path :: InTheOpen(sensitive, path) ==> NodeAt(a, path) == NodeAt(b, path)
  }

  /** A key exists below a node exactly when the node above lists it. */
  lemma {:induction false} KeyIsListedAbove(value: Json, path: Path, key: string)
    ensures NodeAt(value, path + [Key(key)]).Some?
            <==> NodeAt(value, path).Some? && NodeAt(value, path).value.ObjectOf? && key in NodeAt(value, path).value.keys
    decreases |path|
  {
    if path == [] {
      ChildSteps(value, Key(key), []);
      assert [] + [Key(key)] == [Key(key)] + [];
    } else {
      ChildSteps(value, path[0], path[1..] + [Key(key)]);
      assert path + [Key(key)] == [path[0]] + (path[1..] + [Key(key)]);
      if Child(value, path[0]).Some? {
        KeyIsListedAbove(Child(value, path[0]).value, path[1..], key);
      }
    }
  }

  lemma OpenTreesShowTheSame(sensitive: Keys, a: Json, b: Json, path: Path)
    requires SameInTheOpen(sensitive, a, b)
    ensures Shown(sensitive, a, path) == Shown(sensitive, b, path)
  {
    if !InTheOpen(sensitive, path) && InTheOpen(sensitive, path[..|path| - 1]) {
      var above, last := path[..|path| - 1], path[|path| - 1];
      assert path == above + [last];
      assert Hides(sensitive, last);
      KeyIsListedAbove(a, above, last.key);
      KeyIsListedAbove(b, above, last.key);
    }
  }

  /**
   What a redacted tree gives away is exactly what is not below a sensitive key: two trees are redacted
   alike if and only if they agree on every path that goes through no sensitive key.
   */
  lemma RedactionHidesExactlySecrets(sensitive: Keys, a: Json, b: Json)
    ensures Redact(sensitive, a) == Redact(sensitive, b) <==> SameInTheOpen(sensitive, a, b)
  {
    if SameInTheOpen(sensitive, a, b) {
      forall path: Path
        ensures NodeAt(Redact(sensitive, a), path) == NodeAt(Redact(sensitive, b), path)
      {
        RedactShowsExactly(sensitive, a, path);
        RedactShowsExactly(sensitive, b, path);
        OpenTreesShowTheSame(sensitive, a, b, path);
      }
      NodesDetermineTree(Redact(sensitive, a), Redact(sensitive, b));
    }
    if Redact(sensitive, a) == Redact(sensitive, b) {
      forall path: Path | InTheOpen(sensitive, path)
        ensures NodeAt(a, path) == NodeAt(b, path)
      {
        RedactShowsExactly(sensitive, a, path);
        RedactShowsExactly(sensitive, b, path);
      }
    }
  }

  /** Wherever a sensitive key occurs it holds the marker. */
  ghost predicate Clean(sensitive: Keys, value: Json) {
    forall path: Path :: EndsInSecret(sensitive, path) && NodeAt(value, path).Some?
      ==> NodeAt(value, path) == Some(Leaf(MARKER))
  }

  predicate EndsInSecret(sensitive: Keys, path: Path) {
    path != [] && Hides(sensitive, path[|path| - 1])
  }

  lemma CleanChild(sensitive: Keys, value: Json, step: Step)
    requires Clean(sensitive, value) && Child(value, step).Some?
    ensures Clean(sensitive, Child(value, step).value)
    ensures Hides(sensitive, step) ==> Child(value, step).value == MARKER
  {
    forall path: Path | EndsInSecret(sensitive, path) && NodeAt(Child(value, step).value, path).Some?
      ensures NodeAt(Child(value, step).value, path) == Some(Leaf(MARKER))
    {
      ChildSteps(value, step, path);
      assert EndsInSecret(sensitive, [step] + path);
    }
    if Hides(sensitive, step) {
      ChildSteps(value, step, []);
      assert EndsInSecret(sensitive, [step] + []);
    }
  }

  lemma {:induction false} CleanTreeIsUnchanged(sensitive: Keys, value: Json)
    requires Clean(sensitive, value)
    ensures Redact(sensitive, value) == value
    decreases value
  {
    if value.Object? {
      forall key | key in value.fields
        ensures Redact(sensitive, value).fields[key] == value.fields[key]
      {
        CleanChild(sensitive, value, Key(key));
        CleanTreeIsUnchanged(sensitive, value.fields[key]);
      }
      assert Redact(sensitive, value).fields == value.fields;
    } else if value.Array? {
      forall i | 0 <= i < |value.items|
        ensures Redact(sensitive, value).items[i] == value.items[i]
      {
        CleanChild(sensitive, value, Index(i));
        CleanTreeIsUnchanged(sensitive, value.items[i]);
      }
      assert Redact(sensitive, value).items == value.items;
    }
  }

  /** Redaction leaves exactly the clean trees alone, and makes every tree clean. */
  lemma UnchangedIffClean(sensitive: Keys, value: Json)
    ensures Redact(sensitive, value) == value <==> Clean(sensitive, value)
    ensures Clean(sensitive, Redact(sensitive, value))
  {
    forall path: Path | EndsInSecret(sensitive, path) && NodeAt(Redact(sensitive, value), path).Some?
      ensures NodeAt(Redact(sensitive, value), path) == Some(Leaf(MARKER))
    {
      RedactShowsExactly(sensitive, value, path);
      assert Hides(sensitive, path[|path| - 1]);
    }
    if Clean(sensitive, value) {
      CleanTreeIsUnchanged(sensitive, value);
    }
  }
}
