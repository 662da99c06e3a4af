/** An offline bundle of declarations, and the dependency graph it declares by textual keys. */
module Bundle {
  import opened Products
  import opened Digraph

  /** Where a declaration was read: the selected source and the physical document, both counted from 1. */
  datatype Origin = Origin(source: nat, document: nat)

  datatype Document = Document(origin: Origin, product: Product)

  type Index = map<string, Document>

  function Text(k: Key): string
  {
    k.ns + "/" + k.name
  }

  /** How many bytes the UTF-8 encoding of a text has. */
  function Utf8Length(s: string): nat
  {
    if s == "" then 0
    else
      var c := s[|s| - 1] as int;
      Utf8Length(s[..|s| - 1]) + (if c < 0x80 then 1 else if c < 0x800 then 2 else if c < 0x1_0000 then 3 else 4)
  }

  predicate Ascii(s: string)
  {
    forall i :: 0 <= i < |s| ==> s[i] as int < 0x80
  }

  lemma {:induction false} AsciiLength(s: string)
    requires Ascii(s)
    ensures Utf8Length(s) == |s|
    decreases |s|
  {
    if s != "" {
      AsciiLength(s[..|s| - 1]);
    }
  }

  function KeyOf(doc: Document): string
  {
    Text(doc.product.key)
  }

  function Producer(p: Product, input: Input): string
  {
    Text(Target(p.key, input))
  }

  /** Documents by key; a later document replaces an earlier one. */
  function ByKey(docs: seq<Document>): (m: Index)
    ensures forall k {:trigger m[k]} :: k in m ==> m[k] in docs && KeyOf(m[k]) == k
    ensures forall d {:trigger KeyOf(d)} :: d in docs ==> KeyOf(d) in m
  {
    if docs == [] then map[]
    else
      var last := docs[|docs| - 1];
      assert docs == docs[..|docs| - 1] + [last];
      ByKey(docs[..|docs| - 1])[KeyOf(last) := last]
  }

  /** Every producer a document names, in the bundle or not. */
  function Producers(doc: Document): set<string>
  {
    set i | 0 <= i < |doc.product.inputs| :: Producer(doc.product, doc.product.inputs[i])
  }

  function Needs(m: Index): map<string, set<string>>
  {
    map k | k in m :: Producers(m[k])
  }

  /** The dependencies inside the bundle. */
  function Links(m: Index): map<string, set<string>>
  {
    map k | k in m :: Producers(m[k]) * m.Keys
  }

  /** Every named producer is in the bundle. */
  ghost predicate Closed(m: Index)
  {
    forall k {:trigger m[k]} :: k in m ==> Producers(m[k]) <= m.Keys
  }

  lemma {:induction false} ClosedLinks(m: Index)
    requires Closed(m)
    ensures Links(m) == Needs(m)
  {
    forall k | k in m
      ensures Links(m)[k] == Needs(m)[k]
    {
      assert Producers(m[k]) <= m.Keys;
    }
  }

  /** Keys and origins identify documents. */
  ghost predicate Distinguished(docs: seq<Document>)
  {
    forall i, j :: 0 <= i < j < |docs| ==> KeyOf(docs[i]) != KeyOf(docs[j]) && docs[i].origin != docs[j].origin
  }

  lemma {:induction false} KeyedDocument(docs: seq<Document>, i: nat)
    requires i < |docs| && forall a, b :: 0 <= a < b < |docs| ==> KeyOf(docs[a]) != KeyOf(docs[b])
    ensures KeyOf(docs[i]) in ByKey(docs) && ByKey(docs)[KeyOf(docs[i])] == docs[i]
    decreases |docs|
  {
    var front := docs[..|docs| - 1];
    if i < |front| {
      KeyedDocument(front, i);
      assert docs[i] == front[i];
    }
  }

  lemma {:induction false} KeyedMember(docs: seq<Document>, d: Document)
    requires d in docs && forall a, b :: 0 <= a < b < |docs| ==> KeyOf(docs[a]) != KeyOf(docs[b])
    ensures KeyOf(d) in ByKey(docs) && ByKey(docs)[KeyOf(d)] == d
  {
    var i :| 0 <= i < |docs| && docs[i] == d;
    KeyedDocument(docs, i);
  }
}
