/**
 * The temporary files of the server: which paths exist now, and the history of every
 * path created (`tempfile.mkstemp`) and every removal that found a file to remove
 * (`os.remove`).
 */
module TempFiles {

  /** A temporary path; mkstemp's random names are modelled by a counter. */
  type TempPath = nat

  predicate Distinct(s: seq<TempPath>) {
    forall i, j :: 0 <= i < j < |s| ==> s[i] != s[j]
  }

  /** The paths a sequence of paths mentions. */
  function Paths(s: seq<TempPath>): (r: set<TempPath>)
    ensures forall p :: p in r <==> p in s
  {
    set p | p in s
  }

  class TempDir {
    /** The temporary files that exist. */
    var live: set<TempPath>
    /** The next name mkstemp hands out. */
    var next: TempPath
    /** Every path created, in order. */
    ghost var created: seq<TempPath>
    /** Every effective removal, in order. */
    ghost var removed: seq<TempPath>

    /**
     * A path exists exactly when it was created and not yet removed, and no path was
     * created twice or removed twice: every creation is matched by at most one removal.
     */
    ghost predicate Valid()
      reads this
    {
      Distinct(created) && Distinct(removed)
      && (forall p :: p in removed ==> p in created)
      && (forall p :: p in live <==> p in created && p !in removed)
      && (forall i :: 0 <= i < |created| ==> created[i] < next)
    }

    constructor ()
      ensures Valid()
      ensures live == {} && created == [] && removed == []
    {
      live, next := {}, 0;
      created, removed := [], [];
    }

    /** `mkstemp`: a fresh, empty file whose name exists nowhere else. */
    method MakeTemp() returns (p: TempPath)
      requires Valid()
      modifies this
      ensures Valid()
      ensures p !in old(live) && p !in old(created)
      ensures live == old(live) + {p}
      ensures created == old(created) + [p] && removed == old(removed)
    {
      p := next;
      next := next + 1;
      live := live + {p};
      created := created + [p];
    }

    /** `os.path.exists`. */
    method Exists(p: TempPath) returns (b: bool)
      ensures b <==> p in live
    {
      b := p in live;
    }

    /**
     * `os.remove`: removes an existing file; for a missing file it changes nothing and
     * reports the FileNotFoundError Python would raise.
     */
    method Remove(p: TempPath) returns (found: bool)
      requires Valid()
      modifies this
      ensures Valid()
      ensures found <==> p in old(live)
      ensures live == old(live) - {p}
      ensures created == old(created)
      ensures removed == if found then old(removed) + [p] else old(removed)
    {
      found := p in live;
      if found {
        live := live - {p};
        removed := removed + [p];
      }
    }
  }
}
