/**
 * What the splitter reads from one parsed document (main.go:73-103): the
 * top-level `kind`, `metadata.name` and `metadata.namespace`, and the file
 * name built from them. The YAML parser itself is not modelled; its result
 * is the `Parsed` value it hands back.
 */
module Manifest {

  import opened Options

  /**
   * A YAML value as the parser produces it, reduced to the shapes the
   * splitter tells apart: a string scalar, a nested mapping, or anything
   * else (another scalar, a sequence, null). A nested mapping keeps its
   * string-keyed entries only; an entry under another key can never be
   * found by the lookups of "name" or "namespace".
   */
  datatype Value =
    | Str(text: string)
    | Mapping(entries: map<string, Value>)
    | Other

  /** The outcome of unmarshalling one chunk into a `map[string]interface{}`. */
  datatype Parsed =
    | Unparsable
    | Document(fields: map<string, Value>)

  /** The resource a document describes. */
  datatype Identity = Identity(kind: string, name: string, namespace: string)

  /** The required field a document lacks, or holds with the wrong type. */
  datatype Problem = NoKind | NoMetadata | NoName | NoNamespace

  /** What the splitter makes of one parsed chunk. */
  datatype Verdict =
    | Unreadable
    | Blank
    | Invalid(problem: Problem)
    | Resource(id: Identity)

  /** A comma-ok string assertion `m[key].(string)`: the string, or None when the key is absent or holds another type. */
  function StringField(m: map<string, Value>, key: string): Option<string> {
    if key in m && m[key].Str? then Some(m[key].text) else None
  }

  /** The single-value assertion `fields["metadata"].(map[interface{}]interface{})`: None where Go panics. */
  function Metadata(fields: map<string, Value>): Option<map<string, Value>> {
    if "metadata" in fields && fields["metadata"].Mapping? then Some(fields["metadata"].entries) else None
  }

  /**
   * Identity extraction (main.go:74-101). The checks run in the source's
   * order, so a document lacking several fields is reported for the first.
   */
  function Examine(p: Parsed): (r: Verdict)
    ensures r == Unreadable <==> p == Unparsable
    ensures r == Blank <==> p == Document(map[])
    ensures r == Invalid(NoKind) <==>
      p.Document? && p.fields != map[] && StringField(p.fields, "kind").None?
    ensures r == Invalid(NoMetadata) <==>
      p.Document? && StringField(p.fields, "kind").Some? && Metadata(p.fields).None?
    ensures r == Invalid(NoName) <==>
      p.Document? && StringField(p.fields, "kind").Some? && Metadata(p.fields).Some?
      && StringField(Metadata(p.fields).value, "name").None?
    ensures r == Invalid(NoNamespace) <==>
      p.Document? && StringField(p.fields, "kind").Some? && Metadata(p.fields).Some?
      && StringField(Metadata(p.fields).value, "name").Some?
      && StringField(Metadata(p.fields).value, "namespace").None?
      && StringField(p.fields, "kind").value != "Namespace"
    ensures r.Resource? ==>
      && p.Document?
      && StringField(p.fields, "kind") == Some(r.id.kind)
      && Metadata(p.fields).Some?
      && StringField(Metadata(p.fields).value, "name") == Some(r.id.name)
      && (|| StringField(Metadata(p.fields).value, "namespace") == Some(r.id.namespace)
          || (&& StringField(Metadata(p.fields).value, "namespace").None?
              && r.id.kind == "Namespace"
              && r.id.namespace == r.id.name))
  {
    match p
    case Unparsable => Unreadable
    case Document(fields) =>
      if |fields| == 0 then Blank
      else match StringField(fields, "kind")
        case None => Invalid(NoKind)
        case Some(kind) =>
          match Metadata(fields)
          case None => Invalid(NoMetadata)
          case Some(meta) =>
            match StringField(meta, "name")
            case None => Invalid(NoName)
            case Some(name) =>
              match StringField(meta, "namespace")
              case Some(ns) => Resource(Identity(kind, name, ns))
              case None =>
                if kind == "Namespace" then Resource(Identity(kind, name, name))
                else Invalid(NoNamespace)
  }

  /** The output file name `kind__name__namespace.yaml` (main.go:103). */
  function Filename(id: Identity): (fn: string)
    ensures |fn| == |id.kind| + |id.name| + |id.namespace| + 9
    ensures fn[..|id.kind|] == id.kind
    ensures fn[|fn| - 5..] == ".yaml"
  {
    id.kind + "__" + id.name + "__" + id.namespace + ".yaml"
  }

  /** A manifest document for `id`, with any other top-level and metadata fields beside the three read. */
  function ManifestOf(id: Identity, top: map<string, Value>, meta: map<string, Value>): Parsed {
    Document(top["kind" := Str(id.kind)]["metadata" := Mapping(meta["name" := Str(id.name)]["namespace" := Str(id.namespace)])])
  }

  /** Extraction inverts writing a manifest: whatever else it holds, a document that states a resource's fields yields that resource. */
  lemma ExamineManifest(id: Identity, top: map<string, Value>, meta: map<string, Value>)
    ensures Examine(ManifestOf(id, top, meta)) == Resource(id)
  {
    var fields := ManifestOf(id, top, meta).fields;
    assert "kind" in fields;
    assert |fields| > 0;
  }

  /**
   * The namespace rule (main.go:94-101): with no string namespace, a
   * resource of kind exactly "Namespace" is its own namespace, and any other
   * kind is rejected.
   */
  lemma NamespaceDefault(kind: string, name: string, top: map<string, Value>, meta: map<string, Value>)
    requires StringField(meta, "namespace").None?
    ensures var p := Document(top["kind" := Str(kind)]["metadata" := Mapping(meta["name" := Str(name)])]);
      Examine(p) == if kind == "Namespace" then Resource(Identity(kind, name, name)) else Invalid(NoNamespace)
  {
    var p := Document(top["kind" := Str(kind)]["metadata" := Mapping(meta["name" := Str(name)])]);
    assert "kind" in p.fields;
    assert StringField(meta["name" := Str(name)], "namespace").None?;
  }

  /** A `__` after an underscore-free prefix marks where that prefix ends. */
  lemma SplitAtSeparator(a: string, x: string, b: string, y: string)
    requires '_' !in a && '_' !in b
    requires a + "__" + x == b + "__" + y
    ensures a == b && x == y
  {
    var f := a + "__" + x;
    assert f[|a|] == '_' && f[|b|] == '_';
    assert a == f[..|a|] == b;
    assert x == f[|a| + 2..] == y;
  }

  /** Regrouping a file name as its kind, `__`, and the rest. */
  lemma FilenameRegrouped(k: string, n: string, ns: string)
    ensures k + "__" + n + "__" + ns + ".yaml" == k + "__" + (n + "__" + (ns + ".yaml"))
  {
  }

  /** The string form of FilenameInjective, kept apart from Filename's own contract. */
  lemma JoinedNamesInjective(k1: string, n1: string, s1: string, k2: string, n2: string, s2: string)
    requires '_' !in k1 && '_' !in n1 && '_' !in k2 && '_' !in n2
    requires k1 + "__" + n1 + "__" + s1 + ".yaml" == k2 + "__" + n2 + "__" + s2 + ".yaml"
    ensures k1 == k2 && n1 == n2 && s1 == s2
  {
    FilenameRegrouped(k1, n1, s1);
    FilenameRegrouped(k2, n2, s2);
    SplitAtSeparator(k1, n1 + "__" + (s1 + ".yaml"), k2, n2 + "__" + (s2 + ".yaml"));
    SplitAtSeparator(n1, s1 + ".yaml", n2, s2 + ".yaml");
    assert s1 == (s1 + ".yaml")[..|s1|];
    assert s2 == (s2 + ".yaml")[..|s2|];
  }

  /**
   * Two resources get the same file exactly when they are the same resource,
   * as long as their kinds and names hold no underscore.
   */
  lemma FilenameInjective(id1: Identity, id2: Identity)
    requires '_' !in id1.kind && '_' !in id1.name
    requires '_' !in id2.kind && '_' !in id2.name
    ensures Filename(id1) == Filename(id2) <==> id1 == id2
  {
    if Filename(id1) == Filename(id2) {
      JoinedNamesInjective(id1.kind, id1.name, id1.namespace, id2.kind, id2.name, id2.namespace);
    }
  }

  /**
   * Without that restriction distinct resources can collide: kind "a__b"
   * with name "c" and kind "a" with name "b__c" share one file name.
   */
  lemma FilenameCollision()
    ensures var id1 := Identity("a__b", "c", "d");
      var id2 := Identity("a", "b__c", "d");
      id1 != id2 && Filename(id1) == Filename(id2)
  {
    assert Identity("a__b", "c", "d").kind != Identity("a", "b__c", "d").kind;
  }
}
