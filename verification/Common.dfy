/** References to Kubernetes objects and what they resolve to (api/v1/common/common.go). */
module Common {
  import opened Text

  datatype NamespacedName = NamespacedName(namespace: string, name: string)

  datatype ResourceRef = ResourceRef(name: string, namespace: string)
  {
    predicate IsEmpty() {
      name == "" && namespace == ""
    }
  }

  predicate AllEmpty(namespaces: seq<string>) {
    forall j :: 0 <= j < |namespaces| ==> namespaces[j] == ""
  }

  /** The first non-empty namespace of the list, or the empty one. */
  function SelectNamespace(namespaces: seq<string>): (r: string)
    ensures r == "" ==> AllEmpty(namespaces)
    ensures r != "" ==> exists i :: 0 <= i < |namespaces| && namespaces[i] == r && AllEmpty(namespaces[..i])
  {
    if namespaces == [] then ""
    else if namespaces[0] != "" then namespaces[0]
    else
      var r := SelectNamespace(namespaces[1..]);
      assert namespaces == [""] + namespaces[1..];
      assert r != "" ==> forall i :: 0 <= i <= |namespaces| - 1 ==> namespaces[..i + 1] == [""] + namespaces[1..][..i];
      r
  }

  function GetObject(ref: Option<ResourceRef>, parentNamespace: string): Option<NamespacedName> {
    match ref
    case None => None
    case Some(r) => Some(Resolve(r, parentNamespace))
  }

  function Resolve(r: ResourceRef, parentNamespace: string): NamespacedName {
    NamespacedName(SelectNamespace([r.namespace, parentNamespace]), r.name)
  }

  /** `ref`, written in an object of namespace `parent`, means the object `target`: a reference
      without a namespace means the namespace it is written in. */
  predicate RefersTo(ref: ResourceRef, parent: string, target: NamespacedName) {
    ref.name == target.name && target.namespace == (if ref.namespace == "" then parent else ref.namespace)
  }

  lemma ResolveIsRefersTo(ref: ResourceRef, parent: string, target: NamespacedName)
    ensures Resolve(ref, parent) == target <==> RefersTo(ref, parent, target)
  {
    var both := [ref.namespace, parent];
    assert both[0] == ref.namespace && both[1] == parent;
    assert both[1..] == [parent] && [parent][1..] == [];
  }
}
