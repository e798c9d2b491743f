// File lists of downloads: the places src/remote.rs gives to listed files.

module TransferList {
  import opened MachineInts
  import opened TransferSpec
  import opened TransferSend

  lemma JoinInjective(base: Path, a: string, b: string)
    requires Join(base, a) == Join(base, b)
    ensures a == b
  {
    var k := |Join(base, a)| - |a|;
    assert Join(base, a)[k..] == a && Join(base, b)[k..] == b;
  }

  lemma JoinApart(base: Path, a: string, b: string)
    requires a != b
    ensures Join(base, a) != Join(base, b)
  {
    if Join(base, a) == Join(base, b) { JoinInjective(base, a, b); }
  }

  lemma LocatedApart(base: Path, a: string, b: string)
    ensures Located(base, a) == Located(base, b) <==> a == b
  {
    if Located(base, a) == Located(base, b) && a != "" && b != "" { JoinInjective(base, a, b); }
  }

  ghost predicate NamesDiffer(es: seq<Entry>)
  {
    forall f, g :: FileAt(es, f) && FileAt(es, g) && f != g ==> es[f].name != es[g].name
  }

  // Distinct names and distinct destinations are the same thing.
  lemma DestinationsDiffer(base: Path, es: seq<Entry>)
    ensures NamesDiffer(es)
       <==> forall f, g :: FileAt(es, f) && FileAt(es, g) && f != g ==>
              Destinations(base, es)[f] != Destinations(base, es)[g]
  {
    forall f, g | FileAt(es, f) && FileAt(es, g)
      ensures Destinations(base, es)[f] == Destinations(base, es)[g] <==> es[f].name == es[g].name
    {
      LocatedApart(base, es[f].name, es[g].name);
    }
  }

  // Where a file of a job goes.
  function Place(d: Download, f: nat): Path
    requires f < |d.entries|
  {
    Located(d.dest, d.entries[f].name)
  }

  ghost predicate Acceptable(d: Download) { d.dest != "" && NamesSafe(d.entries) && NamesDiffer(d.entries) }

  ghost predicate PlacesApart(d: Download, d': Download)
  {
    forall f: nat, g: nat :: FileAt(d.entries, f) && FileAt(d'.entries, g) ==> Place(d, f) != Place(d', g)
  }

  // Safe lists of differing names, and no two files in one place.
  ghost predicate Sensible(asks: Downloads)
  {
    && (forall id :: id in asks ==> Acceptable(asks[id]))
    && forall id, id' :: id in asks && id' in asks && id != id' ==> PlacesApart(asks[id], asks[id'])
  }

  lemma PlacesDiffer(asks: Downloads, id: i32, f: nat, id': i32, f': nat)
    requires Sensible(asks) && id in asks && id' in asks && FileAt(asks[id].entries, f) && FileAt(asks[id'].entries, f')
    requires id != id' || f != f'
    ensures Place(asks[id], f) != Place(asks[id'], f')
  {
    if id == id' {
      assert Acceptable(asks[id]);
      LocatedApart(asks[id].dest, asks[id].entries[f].name, asks[id].entries[f'].name);
    } else {
      assert PlacesApart(asks[id], asks[id']);
    }
  }
}
