/**
 The block groups of an ext2 filesystem as Filesystem::AllocateBlock sees them: their
 free counts, which of them are in memory, and the list of those that have blocks.
 That a group grants a block exactly when its count is not 0 is in ExtBitmap.
 */
module ExtGroups {
  const WORD := 65536

  /** Whether the search for groups that are not in memory, from group `j` on, comes to one with blocks. */
  function Finds(counts: seq<nat>, inMemory: set<nat>, j: nat): bool
    decreases |counts| - j
  {
    j < |counts| && (counts[j] != 0 || Finds(counts, inMemory, if j in inMemory then j + 1 else j + 2))
  }

  /** Right after mounting it looks at every other group only. */
  lemma {:induction false} FindsEven(counts: seq<nat>, j: nat)
    ensures Finds(counts, {}, j) <==> exists i :: j <= i < |counts| && (i - j) % 2 == 0 && counts[i] != 0
    decreases |counts| - j
  {
    if j < |counts| {
      FindsEven(counts, j + 2);
      if counts[j] != 0 {
        assert j <= j < |counts| && (j - j) % 2 == 0;
      } else {
        forall i | j <= i < |counts| && (i - j) % 2 == 0 && counts[i] != 0
          ensures j + 2 <= i && (i - (j + 2)) % 2 == 0 {}
        forall i | j + 2 <= i < |counts| && (i - (j + 2)) % 2 == 0 && counts[i] != 0
          ensures (i - j) % 2 == 0 {}
      }
    }
  }

  /** It comes to one if there is one, when no group without blocks that is out of memory comes right before one with blocks. */
  lemma {:induction false} FindsAll(counts: seq<nat>, inMemory: set<nat>, j: nat)
    requires forall i: nat | j <= i && i + 1 < |counts| && i !in inMemory && counts[i] == 0 :: counts[i + 1] == 0
    ensures Finds(counts, inMemory, j) <==> exists i :: j <= i < |counts| && counts[i] != 0
    decreases |counts| - j
  {
    if j < |counts| && counts[j] == 0 {
      FindsAll(counts, inMemory, if j in inMemory then j + 1 else j + 2);
    }
  }

  lemma FindsSame(counts: seq<nat>, a: set<nat>, b: set<nat>, j: nat)
    requires forall i | j <= i < |counts| :: i in a <==> i in b
    ensures Finds(counts, a, j) == Finds(counts, b, j)
    decreases |counts| - j
  {
    if j < |counts| { FindsSame(counts, a, b, if j in a then j + 1 else j + 2); }
  }

  class Filesystem {
    /** The 16-bit free count of each group. */
    var counts: seq<nat>
    /** The groups that are in memory, and how far AllocateBlock has looked for others. */
    var inMemory: set<nat>
    var initialized: nat
    /** The groups in memory that have blocks, the first to be asked first. */
    var list: seq<nat>
    var superFree: nat
    var checkRequested: bool

    constructor (counts: seq<nat>, superFree: nat)
      requires forall i | 0 <= i < |counts| :: counts[i] < WORD
      ensures Valid() && this.counts == counts && this.superFree == superFree && inMemory == {} && initialized == 0 && list == []
    {
      this.counts, this.superFree, checkRequested := counts, superFree, false;
      inMemory, initialized, list := {}, 0, [];
    }

    /** The list is that of the groups in memory with a count that is not 0. */
    ghost predicate Valid()
      reads this
    {
      && (forall i | 0 <= i < |counts| :: counts[i] < WORD)
      && (forall g | g in inMemory :: g < |counts|)
      && (forall i, j | 0 <= i < j < |list| :: list[i] != list[j])
      && forall g: nat {:trigger g in list} :: g in list <==> g in inMemory && counts[g] != 0
    }

    /** BlockGroup::UpdateFreeBlocks after the count of group `g` became `count`. */
    method Update(g: nat, count: nat)
      requires Valid() && g in inMemory && count < WORD
      modifies this`counts, this`list
      ensures Valid() && counts == old(counts)[g := count]
    {
      assert g in list <==> counts[g] != 0;
      if count != 0 && counts[g] == 0 {
        list := [g] + list;
      } else if count == 0 && counts[g] != 0 {
        var i :| 0 <= i < |list| && list[i] == g;
        list := list[..i] + list[i + 1..];
        assert forall h: nat :: h in list <==> h in old(list) && h != g;
      }
      counts := counts[g := count];
    }

    /** Filesystem::GetBlockGroup. */
    method GetBlockGroup(g: nat)
      requires Valid() && g < |counts|
      modifies this`inMemory, this`initialized, this`list
      ensures Valid() && inMemory == old(inMemory) + {g}
      ensures initialized == if g !in old(inMemory) && old(initialized) == g then g + 1 else old(initialized)
      ensures counts[g] == 0 ==> list == old(list)
    {
      if g in inMemory { return; }
      assert g !in list;
      if initialized == g { initialized := initialized + 1; }
      inMemory := inMemory + {g};
      if counts[g] != 0 { list := [g] + list; }
    }

    /** A block of a group in memory, if it has one: BlockGroup::AllocateBlock. */
    method Take(g: nat) returns (ok: bool)
      requires Valid() && g in inMemory && superFree > 0
      modifies this`counts, this`list, this`superFree
      ensures Valid() && (ok <==> old(counts)[g] != 0)
      ensures if ok then counts == old(counts)[g := old(counts)[g] - 1] && superFree == old(superFree) - 1
              else counts == old(counts) && superFree == old(superFree) && list == old(list)
    {
      ok := counts[g] != 0;
      if ok {
        superFree := superFree - 1;
        Update(g, counts[g] - 1);
      }
    }

    /** Some group that will be asked has a block. */
    ghost predicate Offers(preferred: int)
      reads this
    {
      || (0 <= preferred < |counts| && counts[preferred] != 0)
      || list != [] || Finds(counts, inMemory, initialized)
    }

    /**
     Filesystem::AllocateBlock, with -1 for no preferred group. It finds a block exactly
     when the total is not 0 and a group it asks has one; else it sets the total to 0 and
     asks for a check, even if other groups have blocks.
     */
    method AllocateBlock(preferred: int) returns (ok: bool, g: nat)
      requires Valid() && (preferred == -1 || preferred in inMemory)
      modifies this
      ensures Valid() && |counts| == |old(counts)|
      ensures ok <==> old(superFree) > 0 && old(Offers(preferred))
      ensures ok ==> g < |counts| && old(counts)[g] > 0 && counts == old(counts)[g := old(counts)[g] - 1] && superFree == old(superFree) - 1
      ensures !ok ==> counts == old(counts) && superFree == 0 && checkRequested == (old(checkRequested) || old(superFree) > 0)
    {
      g := 0;
      if superFree == 0 { return false, g; }
      if preferred != -1 {
        ok := Take(preferred);
        if ok { return ok, preferred; }
      }
      if list != [] {
        g := list[0];
        assert g in list;
        ok := Take(g);
        return;
      }
      ok, g := Search();
      if !ok { checkRequested, superFree := true, 0; }
    }

    /** Reading more groups: GetBlockGroup counts a new one as initialized, and so does the loop. */
    method Search() returns (ok: bool, g: nat)
      requires Valid() && list == [] && superFree > 0
      modifies this`counts, this`list, this`superFree, this`inMemory, this`initialized
      ensures Valid() && |counts| == |old(counts)| && (ok <==> old(Finds(counts, inMemory, initialized)))
      ensures if ok then g < |counts| && old(counts)[g] > 0 && counts == old(counts)[g := old(counts)[g] - 1] && superFree == old(superFree) - 1
              else counts == old(counts) && superFree == old(superFree)
    {
      ok, g := false, 0;
      while initialized < |counts|
        invariant Valid() && list == [] && counts == old(counts) && superFree == old(superFree)
        invariant Finds(counts, inMemory, initialized) == old(Finds(counts, inMemory, initialized))
        decreases |counts| - initialized
      {
        g := initialized;
        ghost var was := inMemory;
        if g in inMemory { assert counts[g] == 0 by { assert g !in list; } }
        GetBlockGroup(g);
        ok := Take(g);
        if ok { return; }
        initialized := initialized + 1;
        FindsSame(counts, inMemory, was, initialized);
      }
    }

    /** Filesystem::FreeBlock of a block of group `g`, which comes into memory and on the list. */
    method FreeBlock(g: nat)
      requires Valid() && g < |counts|
      modifies this
      ensures Valid() && counts == old(counts)[g := (old(counts)[g] + 1) % WORD] && superFree == old(superFree) + 1
      ensures g in inMemory && (counts[g] != 0 ==> g in list)
    {
      GetBlockGroup(g);
      superFree := superFree + 1;
      Update(g, (counts[g] + 1) % WORD);
    }
  }

  /** A mounted filesystem of two groups, the second of which has all the free blocks, gives none of them. */
  method SkipsAGroup() returns (f: Filesystem, ok: bool)
    ensures fresh(f) && f.Valid() && !ok && f.counts == [0, 5] && f.superFree == 0
  {
    f := new Filesystem([0, 5], 5);
    FindsEven([0, 5], 0);
    var g;
    ok, g := f.AllocateBlock(-1);
  }
}
