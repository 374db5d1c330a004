/** What discover_layout finds for one computer: its object files by family. */
module Layouts {
  import opened Wrappers
  import opened Arqo
  import opened AuditCore

  const BLOBPACKS := "blobpacks"
  const TREEPACKS := "treepacks"
  const LARGEBLOBPACKS := "largeblobpacks"
  const STANDARDOBJECTS := "standardobjects"

  const OBJECT_FAMILIES := [BLOBPACKS, TREEPACKS, LARGEBLOBPACKS, STANDARDOBJECTS]

  /** Files as (shard, name) pairs; `mac` is None when the keyset is missing or does not open. */
  datatype Layout = Layout(computer: string, mac: Option<Mac>, blobpacks: seq<(string, string)>,
      treepacks: seq<(string, string)>, largeblobpacks: seq<(string, string)>, standardobjects: seq<(string, string)>)

  function FamilyItems(l: Layout, kind: string): seq<(string, string)> {
    if kind == BLOBPACKS then l.blobpacks
    else if kind == TREEPACKS then l.treepacks
    else if kind == LARGEBLOBPACKS then l.largeblobpacks
    else l.standardobjects
  }

  /** The file is listed for the computer, in one of its four families. */
  predicate FileOf(l: Layout, x: Item) {
    x.computer == l.computer &&
    var file := (x.shard, x.name);
    || (x.family == "blobpacks" && file in l.blobpacks)
    || (x.family == "treepacks" && file in l.treepacks)
    || (x.family == "largeblobpacks" && file in l.largeblobpacks)
    || (x.family == "standardobjects" && file in l.standardobjects)
  }

  function FilesIn(l: Layout): nat { |l.blobpacks| + |l.treepacks| + |l.largeblobpacks| + |l.standardobjects| }

  /** The families by name, and the files of each, are those of the listing. */
  lemma FamiliesCover(l: Layout, x: Item)
    ensures FileOf(l, x) <==>
              x.computer == l.computer && x.family in OBJECT_FAMILIES && (x.shard, x.name) in FamilyItems(l, x.family)
    ensures FilesIn(l) == |FamilyItems(l, BLOBPACKS)| + |FamilyItems(l, TREEPACKS)|
                          + |FamilyItems(l, LARGEBLOBPACKS)| + |FamilyItems(l, STANDARDOBJECTS)|
  {}

  function Items(computer: string, kind: string, files: seq<(string, string)>): (items: seq<Item>)
    ensures |items| == |files|
    ensures forall i :: 0 <= i < |items| ==> items[i] == Item(computer, kind, files[i].0, files[i].1)
  {
    seq(|files|, i requires 0 <= i < |files| => Item(computer, kind, files[i].0, files[i].1))
  }
}
