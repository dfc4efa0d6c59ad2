/** Directory staging: `makeDirectory` removes whatever exists at a path,
    recursively, and creates an empty directory there. The local file
    system is abstracted to the set of paths that exist, written the way
    the mirror builds them (segments joined by '/'). */
module Staging {

  /** `p` lies strictly inside directory `d`. */
  predicate Beneath(p: string, d: string) {
    d + "/" <= p
  }

  /** Wipe `d` with everything beneath it, then create `d` afresh. */
  function MakeDirectory(fs: set<string>, d: string): (r: set<string>)
    ensures d in r
    ensures forall p :: p in r ==> !Beneath(p, d)
    ensures forall p :: p != d && !Beneath(p, d) ==> (p in r <==> p in fs)
  {
    (set p | p in fs && !Beneath(p, d)) + {d}
  }

  /** The result depends only on what lies outside `d`: staging erases any
      difference in what an earlier run, or an earlier staging followed by
      downloads, left beneath `d`. */
  lemma StagingForgetsContents(fs: set<string>, fs': set<string>, d: string)
    requires forall p :: p != d && !Beneath(p, d) ==> (p in fs <==> p in fs')
    ensures MakeDirectory(fs, d) == MakeDirectory(fs', d)
  {
    var a, b := MakeDirectory(fs, d), MakeDirectory(fs', d);
    forall p
      ensures p in a <==> p in b
    {
      if p != d && !Beneath(p, d) {
        assert p in a <==> p in fs;
        assert p in b <==> p in fs';
      }
    }
  }

  /** Staging twice gives the same state as staging once. */
  lemma MakeDirectoryIdempotent(fs: set<string>, d: string)
    ensures MakeDirectory(MakeDirectory(fs, d), d) == MakeDirectory(fs, d)
  {
    StagingForgetsContents(MakeDirectory(fs, d), fs, d);
  }

  /** Files written beneath a staged directory are gone after staging it
      again: the second call yields the same empty directory. */
  lemma RestagingClearsWrites(fs: set<string>, d: string, written: set<string>)
    requires forall p :: p in written ==> Beneath(p, d)
    ensures MakeDirectory(MakeDirectory(fs, d) + written, d) == MakeDirectory(fs, d)
  {
    StagingForgetsContents(MakeDirectory(fs, d) + written, fs, d);
  }
}
