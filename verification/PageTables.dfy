/**
  Two-level page tables as they lie in physical memory: what a directory translates, and
  the ownership discipline that makes every heap frame part of at most one structure.
 */
module PageTables {
  import opened Layout
  import opened Kalloc

  type Owners = map<nat, Owner>

  /** The entry that translates page v under the directory in frame d, if both levels are present. */
  ghost function Lookup(mem: Memory, d: nat, v: nat): (r: Option<Word>) {
    var e := Entry(mem, d, v / ENTRIES);
    var p := Entry(mem, FrameOf(e), v % ENTRIES);
    if Present(e) && Present(p) then Some(p) else None
  }

  predicate IsDir(owner: Owners, d: nat) {
    d in owner && owner[d].Dir?
  }

  predicate IsTable(owner: Owners, t: nat, d: nat, i: nat) {
    t in owner && owner[t] == Table(d, i)
  }

  predicate IsPage(owner: Owners, u: nat, d: nat, v: nat) {
    u in owner && owner[u] == Page(d, v)
  }

  /** Part of the translation structures, rather than free or in the hands of a caller. */
  predicate Structural(o: Owner) {
    o.Dir? || o.Table? || o.Page?
  }

  /** A present directory entry points to the table it owns. */
  ghost predicate DirsLinked(mem: Memory, owner: Owners) {
    forall d: nat, i: nat {:trigger Entry(mem, d, i)} | IsDir(owner, d) && Present(Entry(mem, d, i)) ::
      IsTable(owner, FrameOf(Entry(mem, d, i)), d, i)
  }

  /** Every table is reached from the directory entry that owns it, with the flags walkpgdir sets. */
  ghost predicate TablesLinked(mem: Memory, owner: Owners) {
    forall t: nat | t in owner && owner[t].Table? :: TableLinked(mem, owner, t, owner[t].dir, owner[t].slot)
  }

  ghost predicate TableLinked(mem: Memory, owner: Owners, t: nat, d: nat, i: nat) {
    && i < ENTRIES
    && IsDir(owner, d)
    && Entry(mem, d, i) == t * PGSIZE + 7
  }

  /** A present entry of a user-half table points to the page it owns. */
  ghost predicate UserEntriesLinked(mem: Memory, owner: Owners) {
    forall t: nat, j: nat {:trigger Entry(mem, t, j)}
      | t in owner && owner[t].Table? && owner[t].slot < USLOTS && Present(Entry(mem, t, j)) ::
      IsPage(owner, FrameOf(Entry(mem, t, j)), owner[t].dir, owner[t].slot * ENTRIES + j)
  }

  /** Every user page is reached from the one entry that owns it. */
  ghost predicate PagesLinked(mem: Memory, owner: Owners) {
    forall u: nat | u in owner && owner[u].Page? :: PageLinked(mem, owner, u, owner[u].dir, owner[u].vpn)
  }

  ghost predicate PageLinked(mem: Memory, owner: Owners, u: nat, d: nat, v: nat) {
    && v < UPAGES
    && IsDir(owner, d)
    && Lookup(mem, d, v).Some?
    && FrameOf(Lookup(mem, d, v).value) == u
  }

  ghost predicate Linked(mem: Memory, owner: Owners) {
    && (forall f | f in owner :: f < UPAGES)
    && DirsLinked(mem, owner)
    && TablesLinked(mem, owner)
    && UserEntriesLinked(mem, owner)
    && PagesLinked(mem, owner)
  }

  /** The contents belong to someone other than the page tables: a caller, or a user page. */
  predicate InUse(o: Owner) {
    o.Held? || o.Page?
  }

  /** Frames in use before and after keep their contents. */
  ghost predicate Untouched(m: Memory, owner: Owners, m': Memory, owner': Owners) {
    forall f: nat | f in owner && f in owner' && f < PAGES && InUse(owner[f]) && InUse(owner'[f]) :: m'[f] == m[f]
  }

  /** The two owner maps agree on every structural frame. */
  ghost predicate SameStructure(owner: Owners, owner': Owners) {
    && (forall f | f in owner && Structural(owner[f]) :: f in owner' && owner'[f] == owner[f])
    && (forall f | f in owner' && Structural(owner'[f]) :: f in owner && owner[f] == owner'[f])
  }

  /** Writing outside the page tables changes no translation and breaks no link. */
  lemma OtherFrames(m: Memory, owner: Owners, m': Memory, owner': Owners)
    requires Linked(m, owner) && SameStructure(owner, owner')
    requires forall f: nat | f in owner && (owner[f].Dir? || owner[f].Table?) :: m'[f] == m[f]
    requires forall g | g in owner' :: g < UPAGES
    ensures Linked(m', owner')
    ensures forall d: nat, v: nat | IsDir(owner, d) :: Lookup(m', d, v) == Lookup(m, d, v)
  {
    forall d: nat, i: nat | IsDir(owner, d) || (d in owner && owner[d].Table?)
      ensures Entry(m', d, i) == Entry(m, d, i)
    {
    }
    forall d: nat, v: nat | IsDir(owner, d) ensures Lookup(m', d, v) == Lookup(m, d, v) {
      assert Entry(m', d, v / ENTRIES) == Entry(m, d, v / ENTRIES);
      var e := Entry(m, d, v / ENTRIES);
      if Present(e) {
        assert IsTable(owner, FrameOf(e), d, v / ENTRIES);
      }
    }
  }

  lemma OtherFrame(m: Memory, owner: Owners, m': Memory, owner': Owners, f: nat)
    requires Linked(m, owner) && OnlyFrame(m, m', f) && SameStructure(owner, owner')
    requires f in owner ==> !Structural(owner[f]) || owner[f].Page?
    requires forall g | g in owner' :: g < UPAGES
    ensures Linked(m', owner')
    ensures forall d: nat, v: nat | IsDir(owner, d) :: Lookup(m', d, v) == Lookup(m, d, v)
  {
    hide Lookup, DirsLinked, TablesLinked, UserEntriesLinked, PagesLinked;
    OtherFrames(m, owner, m', owner');
  }

  /** Present entries lead from a directory to its own table only. */
  lemma WalkStep(m: Memory, owner: Owners, d: nat, i: nat)
    requires Linked(m, owner) && IsDir(owner, d) && Present(Entry(m, d, i))
    ensures var t := FrameOf(Entry(m, d, i));
            IsTable(owner, t, d, i) && t < UPAGES && i < ENTRIES && Entry(m, d, i) == t * PGSIZE + 7
  {
    var t := FrameOf(Entry(m, d, i));
    assert IsTable(owner, t, d, i);
    assert TableLinked(m, owner, t, d, i);
  }

  /** Memory m' is m with an all-zero frame t hung into entry i of directory d. */
  ghost predicate Hung(m: Memory, m': Memory, d: nat, i: nat, t: nat) {
    && t < UPAGES
    && (forall g: nat, k: nat :: Entry(m', g, k) ==
          if g == d && k == i then t * PGSIZE + 7 else if g == t then 0 else Entry(m, g, k))
  }

  lemma HungLookup(m: Memory, owner: Owners, m': Memory, d: nat, i: nat, t: nat)
    requires Linked(m, owner) && IsDir(owner, d) && !Present(Entry(m, d, i))
    requires t in owner && !Structural(owner[t]) && Hung(m, m', d, i, t)
    ensures forall e: nat, v: nat | IsDir(owner, e) :: Lookup(m', e, v) == Lookup(m, e, v)
  {
    forall e: nat, v: nat | IsDir(owner, e) ensures Lookup(m', e, v) == Lookup(m, e, v) {
      if Present(Entry(m, e, v / ENTRIES)) {
        WalkStep(m, owner, e, v / ENTRIES);
      }
    }
  }

  lemma HungTables(m: Memory, owner: Owners, m': Memory, d: nat, i: nat, t: nat)
    requires Linked(m, owner) && IsDir(owner, d) && i < ENTRIES && !Present(Entry(m, d, i))
    requires t in owner && !Structural(owner[t]) && Hung(m, m', d, i, t)
    ensures DirsLinked(m', owner[t := Table(d, i)]) && TablesLinked(m', owner[t := Table(d, i)])
  {
    hide FrameOf, Present;
    var owner' := owner[t := Table(d, i)];
    TableEntry(t);
    forall s: nat | s in owner' && owner'[s].Table? ensures TableLinked(m', owner', s, owner'[s].dir, owner'[s].slot) {
      if s != t {
        assert TableLinked(m, owner, s, owner[s].dir, owner[s].slot);
        TableEntry(s);
      }
    }
    EmptyEntry();
  }

  /** The entry walkpgdir stores for the table in frame t. */
  lemma TableEntry(t: nat)
    requires t < UPAGES
    ensures Present(t * PGSIZE + 7) && FrameOf(t * PGSIZE + 7) == t
  {
    ModUnique(t * 4096 + 7, 4096, t, 7);
    ModUnique(t * 4096 + 7, 2, t * 2048 + 3, 1);
  }

  lemma EmptyEntry()
    ensures !Present(0)
  {
  }

  /** Hanging an empty table into an absent directory entry changes no translation. */
  lemma AddTable(m: Memory, owner: Owners, m': Memory, d: nat, i: nat, t: nat)
    requires Linked(m, owner) && IsDir(owner, d) && i < ENTRIES && !Present(Entry(m, d, i))
    requires t in owner && !Structural(owner[t]) && Hung(m, m', d, i, t)
    ensures Linked(m', owner[t := Table(d, i)])
    ensures forall e: nat, v: nat | IsDir(owner, e) :: Lookup(m', e, v) == Lookup(m, e, v)
  {
    hide Lookup, DirsLinked, TablesLinked;
    var owner' := owner[t := Table(d, i)];
    HungLookup(m, owner, m', d, i, t);
    HungTables(m, owner, m', d, i, t);
    forall u: nat | u in owner' && owner'[u].Page? ensures PageLinked(m', owner', u, owner'[u].dir, owner'[u].vpn) {
      assert PageLinked(m, owner, u, owner[u].dir, owner[u].vpn);
    }
  }

  /** Writing one entry of a linked table changes the translation of exactly one page of one directory. */
  lemma PokeLookup(m: Memory, owner: Owners, m': Memory, d: nat, i: nat, t: nat, j: nat, w: Word)
    requires Linked(m, owner) && IsTable(owner, t, d, i) && Poked(m, m', t, j, w)
    ensures forall e: nat, v: nat | IsDir(owner, e) :: Lookup(m', e, v) ==
              if e == d && v == i * ENTRIES + j then (if Present(w) then Some(w) else None) else Lookup(m, e, v)
  {
    hide Linked, Lookup;
    forall e: nat, v: nat | IsDir(owner, e) ensures Lookup(m', e, v) ==
        if e == d && v == i * ENTRIES + j then (if Present(w) then Some(w) else None) else Lookup(m, e, v)
    {
      PokeOne(m, owner, m', d, i, t, j, w, e, v);
    }
  }

  lemma PokeOne(m: Memory, owner: Owners, m': Memory, d: nat, i: nat, t: nat, j: nat, w: Word, e: nat, v: nat)
    requires Linked(m, owner) && IsTable(owner, t, d, i) && Poked(m, m', t, j, w) && IsDir(owner, e)
    ensures Lookup(m', e, v) ==
            if e == d && v == i * ENTRIES + j then (if Present(w) then Some(w) else None) else Lookup(m, e, v)
  {
    hide Linked, FrameOf, Present;
    TableFrame(m, owner, t, d, i);
    Parts(i, j);
    assert Entry(m', e, v / ENTRIES) == Entry(m, e, v / ENTRIES);
    if Present(Entry(m, e, v / ENTRIES)) {
      WalkStep(m, owner, e, v / ENTRIES);
    }
  }

  /** The entry that leads to a table. */
  lemma TableFrame(m: Memory, owner: Owners, t: nat, d: nat, i: nat)
    requires Linked(m, owner) && IsTable(owner, t, d, i)
    ensures i < ENTRIES && IsDir(owner, d) && t < UPAGES && Present(Entry(m, d, i)) && FrameOf(Entry(m, d, i)) == t != d
  {
    assert TableLinked(m, owner, t, d, i);
    TableEntry(t);
  }

  lemma Parts(i: nat, j: nat)
    requires j < ENTRIES
    ensures (i * ENTRIES + j) / ENTRIES == i && (i * ENTRIES + j) % ENTRIES == j
  {
    ModUnique(i * 1024 + j, 1024, i, j);
  }

  /** A kernel-half entry may take any value: it owns nothing. */
  lemma PokeKernel(m: Memory, owner: Owners, m': Memory, d: nat, i: nat, t: nat, j: nat, w: Word)
    requires Linked(m, owner) && IsTable(owner, t, d, i) && Poked(m, m', t, j, w)
    requires i >= USLOTS
    ensures Linked(m', owner)
  {
    hide Lookup, DirsLinked, TablesLinked;
    PokeLookup(m, owner, m', d, i, t, j, w);
    PokeDirs(m, owner, m', owner, t, j, w);
    forall u: nat | u in owner && owner[u].Page? ensures PageLinked(m', owner, u, owner[u].dir, owner[u].vpn) {
      assert PageLinked(m, owner, u, owner[u].dir, owner[u].vpn);
    }
  }

  lemma PokeDirs(m: Memory, owner: Owners, m': Memory, owner': Owners, t: nat, j: nat, w: Word)
    requires Linked(m, owner) && t in owner && owner[t].Table? && Poked(m, m', t, j, w)
    requires forall f: nat | f in owner && !owner[f].Page? ::
               f in owner' && (Structural(owner[f]) ==> owner'[f] == owner[f])
    requires forall f: nat | f in owner' && (owner'[f].Dir? || owner'[f].Table?) :: f in owner && owner'[f] == owner[f]
    ensures DirsLinked(m', owner') && TablesLinked(m', owner')
  {
    forall s: nat | s in owner' && owner'[s].Table? ensures TableLinked(m', owner', s, owner'[s].dir, owner'[s].slot) {
      assert TableLinked(m, owner, s, owner[s].dir, owner[s].slot);
    }
  }

  /** Mapping a caller's frame at an unmapped user page hands it to that page. */
  lemma MapUser(m: Memory, owner: Owners, m': Memory, d: nat, i: nat, t: nat, j: nat, w: Word)
    requires Linked(m, owner) && IsTable(owner, t, d, i) && Poked(m, m', t, j, w)
    requires i < USLOTS && Present(w) && !Present(Entry(m, t, j))
    requires FrameOf(w) in owner && !Structural(owner[FrameOf(w)])
    ensures Linked(m', owner[FrameOf(w) := Page(d, i * ENTRIES + j)])
  {
    hide Lookup, DirsLinked, TablesLinked;
    var u := FrameOf(w);
    var owner' := owner[u := Page(d, i * ENTRIES + j)];
    PokeLookup(m, owner, m', d, i, t, j, w);
    PokeDirs(m, owner, m', owner', t, j, w);
    Unmapped(m, owner, d, i, t, j);
    forall s: nat | s in owner' && owner'[s].Page? ensures PageLinked(m', owner', s, owner'[s].dir, owner'[s].vpn) {
      if s != u {
        assert PageLinked(m, owner, s, owner[s].dir, owner[s].vpn);
      }
    }
  }

  lemma Unmapped(m: Memory, owner: Owners, d: nat, i: nat, t: nat, j: nat)
    requires Linked(m, owner) && IsTable(owner, t, d, i) && j < ENTRIES
    ensures IsDir(owner, d) && i < ENTRIES && t < UPAGES
    ensures Lookup(m, d, i * ENTRIES + j) == if Present(Entry(m, t, j)) then Some(Entry(m, t, j)) else None
  {
    hide Linked, FrameOf, Present;
    TableFrame(m, owner, t, d, i);
    Parts(i, j);
  }

  /** Clearing a user entry takes its frame out of the structures. */
  lemma UnmapUser(m: Memory, owner: Owners, m': Memory, d: nat, i: nat, t: nat, j: nat, o: Owner)
    requires Linked(m, owner) && IsTable(owner, t, d, i) && Poked(m, m', t, j, 0)
    requires i < USLOTS && Present(Entry(m, t, j)) && !Structural(o)
    ensures IsPage(owner, FrameOf(Entry(m, t, j)), d, i * ENTRIES + j)
    ensures Linked(m', owner[FrameOf(Entry(m, t, j)) := o])
  {
    hide Lookup, DirsLinked, TablesLinked;
    var u := FrameOf(Entry(m, t, j));
    var owner' := owner[u := o];
    PokeLookup(m, owner, m', d, i, t, j, 0);
    PokeDirs(m, owner, m', owner', t, j, 0);
    Unmapped(m, owner, d, i, t, j);
    forall s: nat | s in owner' && owner'[s].Page? ensures PageLinked(m', owner', s, owner'[s].dir, owner'[s].vpn) {
      assert PageLinked(m, owner, s, owner[s].dir, owner[s].vpn);
    }
    UnmapEntries(m, owner, m', d, i, t, j, o);
  }

  lemma UnmapEntries(m: Memory, owner: Owners, m': Memory, d: nat, i: nat, t: nat, j: nat, o: Owner)
    requires Linked(m, owner) && IsTable(owner, t, d, i) && Poked(m, m', t, j, 0)
    requires i < USLOTS && Present(Entry(m, t, j)) && !Structural(o)
    ensures UserEntriesLinked(m', owner[FrameOf(Entry(m, t, j)) := o])
  {
    hide Lookup, DirsLinked;
    var u := FrameOf(Entry(m, t, j));
    var owner' := owner[u := o];
    assert IsPage(owner, u, d, i * ENTRIES + j);
    assert TableLinked(m, owner, t, d, i);
    forall s: nat, k: nat | s in owner' && owner'[s].Table? && owner'[s].slot < USLOTS && Present(Entry(m', s, k))
      ensures IsPage(owner', FrameOf(Entry(m', s, k)), owner'[s].dir, owner'[s].slot * ENTRIES + k)
    {
      assert IsPage(owner, FrameOf(Entry(m, s, k)), owner[s].dir, owner[s].slot * ENTRIES + k);
      assert TableLinked(m, owner, s, owner[s].dir, owner[s].slot);
    }
  }

  /** The owners once directory d and its tables are in the hands of freevm. */
  ghost function Detached(owner: Owners, d: nat): (r: Owners)
    ensures r.Keys == owner.Keys
  {
    map f | f in owner :: if f == d || (owner[f].Table? && owner[f].dir == d) then Held else owner[f]
  }

  /** A directory without user pages can be taken apart without touching any other. */
  lemma Detach(m: Memory, owner: Owners, d: nat)
    requires Linked(m, owner) && IsDir(owner, d)
    requires forall v: nat | v < UPAGES :: Lookup(m, d, v).None?
    ensures Linked(m, Detached(owner, d))
  {
    var owner' := Detached(owner, d);
    hide Lookup;
    forall u: nat | u in owner' && owner'[u].Page? ensures PageLinked(m, owner', u, owner'[u].dir, owner'[u].vpn) {
      assert PageLinked(m, owner, u, owner[u].dir, owner[u].vpn);
    }
    forall t: nat | t in owner' && owner'[t].Table? ensures TableLinked(m, owner', t, owner'[t].dir, owner'[t].slot) {
      assert TableLinked(m, owner, t, owner[t].dir, owner[t].slot);
    }
  }
}
