/** `getContent` of the server: the shared object a callback reports, chosen
    by the type name the client declared for it. */
module SharedContent {
  import opened Wrappers

  /** The shared types a document hands out by name. */
  datatype SharedKind = ArrayKind | MapKind | TextKind | XmlFragmentKind | XmlElementKind

  /** What `getContent` returns: the document's shared object of that kind
      and name, or the empty object `{}`. */
  datatype Content = Shared(kind: SharedKind, name: string) | EmptyObject

  /** The type name a client declares for each kind. */
  function KindName(k: SharedKind): string {
    match k
    case ArrayKind => "Array"
    case MapKind => "Map"
    case TextKind => "Text"
    case XmlFragmentKind => "XmlFragment"
    case XmlElementKind => "XmlElement"
  }

  /** The `switch (objType)` of `getContent`: the kind a declared type name
      selects, or None for the `default` branch. */
  function KindOf(objType: string): (r: Option<SharedKind>)
    ensures r.Some? ==> KindName(r.value) == objType
    ensures r.None? ==> forall k :: KindName(k) != objType
  {
    if objType == "Array" then Some(ArrayKind)
    else if objType == "Map" then Some(MapKind)
    else if objType == "Text" then Some(TextKind)
    else if objType == "XmlFragment" then Some(XmlFragmentKind)
    else if objType == "XmlElement" then Some(XmlElementKind)
    else None
  }

  /** `getContent(objName, objType, doc)`. */
  function GetContent(objName: string, objType: string): (r: Content)
    ensures r.Shared? ==> r.name == objName && KindName(r.kind) == objType
    ensures r == EmptyObject <==> forall k :: KindName(k) != objType
  {
    match KindOf(objType)
    case Some(k) => Shared(k, objName)
    case None => EmptyObject
  }

  /** Every kind is selected by its own type name and by no other, so
      `getContent` reaches every getter. */
  lemma KindNameRoundTrip(k: SharedKind, objName: string)
    ensures KindOf(KindName(k)) == Some(k)
    ensures GetContent(objName, KindName(k)) == Shared(k, objName)
  {
  }

  /** Distinct kinds have distinct type names. */
  lemma KindNameInjective(a: SharedKind, b: SharedKind)
    ensures KindName(a) == KindName(b) <==> a == b
  {
  }
}
