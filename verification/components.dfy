/** The editor's component record, as the importers produce it and the
    exporters consume it. A JSON component is a dictionary; here every key
    the core reads is a field, and a missing key is the default the code
    uses when it reads it. */
module Components {
  import opened ODict
  import opened Dom

  /** The `interaction` settings of a component: the key that toggles it
      (`""` when unset) and whether the master key toggles it instead. */
  datatype Interaction = Interaction(openKey: string, useMasterKey: bool)

  const NoInteraction := Interaction("", false)

  datatype Comp = Comp(
    id: string,
    ctype: string,
    tag: string,
    name: string,
    style: Dict<string>,
    text: string,
    attributes: Dict<AttrValue>,
    children: seq<Comp>,
    interaction: Interaction)

  /** A project: the component trees, the page-wide CSS and script, and the
      per-element CSS and scripts keyed by component id. `nextId` is the
      counter the editor continues from. */
  datatype Project = Project(
    components: seq<Comp>,
    globalCss: string,
    globalJs: string,
    elementCss: Dict<string>,
    elementJs: Dict<string>,
    nextId: nat)

  /** A plain text run placed among the children (`type == 'textnode'`). */
  predicate IsTextNode(c: Comp) { c.ctype == "textnode" }

  /** Every component of the tree, parents before their children. */
  function AllComps(cs: seq<Comp>): (r: seq<Comp>)
    ensures |r| >= |cs|
    decreases cs
  {
    if cs == [] then [] else [cs[0]] + AllComps(cs[0].children) + AllComps(cs[1..])
  }

  /** No component of the trees has the given tag. */
  predicate NoneTagged(cs: seq<Comp>, name: string)
    decreases cs
  {
    forall i :: 0 <= i < |cs| ==> cs[i].tag != name && NoneTagged(cs[i].children, name)
  }

  lemma NoneTaggedAppend(a: seq<Comp>, b: seq<Comp>, name: string)
    requires NoneTagged(a, name) && NoneTagged(b, name)
    ensures NoneTagged(a + b, name)
  {
    assert forall i :: |a| <= i < |a + b| ==> (a + b)[i] == b[i - |a|];
  }
}
