/**
 * The patch database (src/exterminator/src/patcher/patch_db.cpp): its maps,
 * what adding patches does to them, and that writing the database to a file
 * and reading the file into an empty database gives the same patches.
 */
module PatchDb {
  import opened PatchText

  /** A pair of sites; an overflow patch has one site and zero. */
  datatype Key = Key(allocSite: nat, freeSite: nat)

  /** The order in which std::map keeps its keys. */
  predicate Before(k: Key, l: Key) {
    k.allocSite < l.allocSite || (k.allocSite == l.allocSite && k.freeSite < l.freeSite)
  }

  /** The globals of the source. */
  datatype Db = Db(overflows: map<Key, nat>, dangles: map<Key, int>, stats: map<Key, (nat, nat)>,
                   drags: map<Key, int>, updated: seq<Key>)

  const EMPTY := Db(map[], map[], map[], map[], [])

  // ---------------------------------------------------------------------
  // Adding and reading
  // ---------------------------------------------------------------------

  function Counts(db: Db, k: Key): (nat, nat) {
    if k in db.stats then db.stats[k] else (0, 0)
  }

  function Drag(db: Db, k: Key): int {
    if k in db.drags then db.drags[k] else 0
  }

  function AddStat(db: Db, k: Key, heads: nat, tails: nat, drag: int): Db {
    var c := Counts(db, k);
    db.(stats := db.stats[k := ((c.0 + heads) % WORD_LIMIT, (c.1 + tails) % WORD_LIMIT)],
        drags := db.drags[k := if Drag(db, k) == 0 || Drag(db, k) > drag then drag else Drag(db, k)])
  }

  /** What reading one line does. */
  function Load(db: Db, l: Line): Db {
    match l
    case Overflow(site, delta) => db.(overflows := db.overflows[Key(site, 0) := delta])
    case Dangle(a, f, td) => db.(dangles := db.dangles[Key(a, f) := td], updated := db.updated + [Key(a, f)])
    case Stat(a, f, heads, tails) => AddStat(db, Key(a, f), heads, tails, 0)
  }

  function LoadAll(db: Db, lines: seq<Line>): Db
    decreases |lines|
  {
    if lines == [] then db else LoadAll(Load(db, lines[0]), lines[1..])
  }

  lemma {:induction false} LoadAppend(db: Db, a: seq<Line>, b: seq<Line>)
    ensures LoadAll(db, a + b) == LoadAll(LoadAll(db, a), b)
    decreases |a|
  {
    if a == [] {
      assert a + b == b;
    } else {
      assert (a + b)[1..] == a[1..] + b;
      LoadAppend(Load(db, a[0]), a[1..], b);
    }
  }

  /** One turn of the reading loop: the line just read, then whatever follows. */
  lemma LoadTurn(db: Db, h: Header)
    requires h.input.ok && h.site < WORD_LIMIT
    ensures var (s, lines) := ReadBody(h);
            var next := if s.ok then ReadHeader(s) else h.(input := s);
            && |lines| <= 1
            && LoadAll(db, ParseFrom(h)) == LoadAll(if lines == [] then db else Load(db, lines[0]), ParseFrom(next))
  {
    var (s, lines) := ReadBody(h);
    var next := if s.ok then ReadHeader(s) else h.(input := s);
    assert ParseFrom(h) == lines + ParseFrom(next);
    LoadAppend(db, lines, ParseFrom(next));
    if lines != [] { assert lines == [lines[0]] && lines[1..] == []; }
  }

  /** Patches have 32-bit sites and values, and every dangling site pair was recorded as updated. */
  ghost predicate DbOk(db: Db) {
    && (forall k | k in db.overflows :: k.freeSite == 0 && LineOk(Overflow(k.allocSite, db.overflows[k])))
    && (forall k | k in db.dangles :: LineOk(Dangle(k.allocSite, k.freeSite, db.dangles[k])))
    && (forall k | k in db.stats :: LineOk(Stat(k.allocSite, k.freeSite, db.stats[k].0, db.stats[k].1)))
    && (forall k :: k in db.dangles <==> k in db.updated)
  }

  lemma AddStatKeeps(db: Db, k: Key, heads: nat, tails: nat, drag: int)
    requires DbOk(db) && LineOk(Stat(k.allocSite, k.freeSite, heads, tails))
    ensures DbOk(AddStat(db, k, heads, tails, drag))
  {
  }

  lemma LoadKeeps(db: Db, l: Line)
    requires DbOk(db) && LineOk(l)
    ensures DbOk(Load(db, l))
  {
    var db' := Load(db, l);
    if l.Dangle? {
      forall k
        ensures k in db'.dangles <==> k in db'.updated
      {
        assert k in db'.updated <==> k in db.updated || k == Key(l.allocSite, l.freeSite);
      }
    }
  }

  lemma {:induction false} LoadAllKeeps(db: Db, lines: seq<Line>)
    requires DbOk(db) && forall l | l in lines :: LineOk(l)
    ensures DbOk(LoadAll(db, lines))
    decreases |lines|
  {
    if lines != [] {
      LoadKeeps(db, lines[0]);
      LoadAllKeeps(Load(db, lines[0]), lines[1..]);
    }
  }

  // ---------------------------------------------------------------------
  // What many updates and lines add up to
  // ---------------------------------------------------------------------

  /** One call of update_static_info for some key. */
  datatype Update = Update(heads: nat, tails: nat, drag: int)

  function AddAll(db: Db, k: Key, us: seq<Update>): Db {
    if us == [] then db
    else
      var u := us[|us| - 1];
      AddStat(AddAll(db, k, us[..|us| - 1]), k, u.heads, u.tails, u.drag)
  }

  function HeadSum(us: seq<Update>): nat {
    if us == [] then 0 else HeadSum(us[..|us| - 1]) + us[|us| - 1].heads
  }

  function TailSum(us: seq<Update>): nat {
    if us == [] then 0 else TailSum(us[..|us| - 1]) + us[|us| - 1].tails
  }

  lemma ModAdd(a: nat, b: nat)
    ensures (a % WORD_LIMIT + b) % WORD_LIMIT == (a + b) % WORD_LIMIT
  {
  }

  /** The counts of a key are the sums over its updates modulo 2^32. */
  lemma {:induction false} CountsAddUp(db: Db, k: Key, us: seq<Update>)
    requires us != [] && Counts(db, k).0 < WORD_LIMIT && Counts(db, k).1 < WORD_LIMIT
    ensures var c := Counts(AddAll(db, k, us), k);
            && c.0 == (Counts(db, k).0 + HeadSum(us)) % WORD_LIMIT
            && c.1 == (Counts(db, k).1 + TailSum(us)) % WORD_LIMIT
  {
    var front, u := us[..|us| - 1], us[|us| - 1];
    if front != [] {
      CountsAddUp(db, k, front);
      ModAdd(Counts(db, k).0 + HeadSum(front), u.heads);
      ModAdd(Counts(db, k).1 + TailSum(front), u.tails);
    }
  }

  /** Updates of one key leave everything else alone. */
  lemma {:induction false} OtherKeysStay(db: Db, k: Key, us: seq<Update>, l: Key)
    requires l != k
    ensures var db' := AddAll(db, k, us);
            && (l in db'.stats <==> l in db.stats) && Counts(db', l) == Counts(db, l)
            && (l in db'.drags <==> l in db.drags) && Drag(db', l) == Drag(db, l)
            && db' == db.(stats := db'.stats, drags := db'.drags)
  {
    if us != [] { OtherKeysStay(db, k, us[..|us| - 1], l); }
  }

  predicate IsLeastNonzero(us: seq<Update>, d: int) {
    d != 0 && (exists i :: 0 <= i < |us| && us[i].drag == d)
    && forall i | 0 <= i < |us| :: us[i].drag == 0 || d <= us[i].drag
  }

  /** Some update brings the least nonzero drag of all, below zero or with no zero drag after it. */
  predicate LeastStays(us: seq<Update>) {
    exists i :: 0 <= i < |us| && IsLeastNonzero(us, us[i].drag) && Survives(us, i)
  }

  predicate Survives(us: seq<Update>, i: nat)
    requires i < |us|
  {
    us[i].drag < 0 || forall j | i < j < |us| :: us[j].drag != 0
  }

  /**
   * The drag kept for a new key is the least nonzero one seen exactly when that
   * is negative or no update without a drag comes after it: a zero wipes out
   * any positive drag.
   */
  lemma DragIsLeastIff(db: Db, k: Key, us: seq<Update>)
    requires k !in db.drags
    ensures IsLeastNonzero(us, Drag(AddAll(db, k, us), k)) <==> LeastStays(us)
  {
    DragKept(db, k, us);
    var d := Drag(AddAll(db, k, us), k);
    if LeastStays(us) {
      var i :| 0 <= i < |us| && IsLeastNonzero(us, us[i].drag) && Survives(us, i);
      assert us[i].drag == 0 || d <= us[i].drag;
    }
  }

  /** An update without a drag between two others makes the larger one stay. */
  lemma DragIsWipedOut(k: Key)
    ensures var us := [Update(1, 0, 5), Update(1, 0, 0), Update(1, 0, 7)];
            Drag(AddAll(EMPTY, k, us), k) == 7 && IsLeastNonzero(us, 5)
  {
    var us := [Update(1, 0, 5), Update(1, 0, 0), Update(1, 0, 7)];
    assert us[..2] == [Update(1, 0, 5), Update(1, 0, 0)] && us[..2][..1] == [Update(1, 0, 5)];
    assert us[..2][..1][..0] == [];
    assert Drag(AddAll(EMPTY, k, us[..2][..1]), k) == 5;
    assert Drag(AddAll(EMPTY, k, us[..2]), k) == 0;
    assert us[0].drag == 5;
  }

  /** What the kept drag is in every case. */
  lemma {:induction false} DragKept(db: Db, k: Key, us: seq<Update>)
    requires k !in db.drags
    ensures var d := Drag(AddAll(db, k, us), k);
            && (d != 0 ==> exists i :: 0 <= i < |us| && us[i].drag == d && Survives(us, i))
            && forall i | 0 <= i < |us| && us[i].drag != 0 && Survives(us, i) :: d != 0 && d <= us[i].drag
  {
    if us != [] {
      var n := |us| - 1;
      var front := us[..n];
      DragKept(db, k, front);
      var c, d := Drag(AddAll(db, k, front), k), Drag(AddAll(db, k, us), k);
      if d == us[n].drag {
        assert Survives(us, n);
      } else {
        var i :| 0 <= i < n && front[i].drag == c && Survives(front, i);
        assert us[i].drag == d && Survives(us, i);
      }
      forall i | 0 <= i < |us| && us[i].drag != 0 && Survives(us, i)
        ensures d != 0 && d <= us[i].drag
      {
        if i < n { assert Survives(front, i) && front[i] == us[i]; }
      }
    }
  }

  /** The three kinds of lines follow each other. */
  function Section(l: Line): nat {
    match l
    case Overflow(_, _) => 0
    case Dangle(_, _, _) => 1
    case Stat(_, _, _, _) => 2
  }

  function KeyOf(l: Line): Key {
    match l
    case Overflow(site, _) => Key(site, 0)
    case Dangle(a, f, _) => Key(a, f)
    case Stat(a, f, _, _) => Key(a, f)
  }

  /** The line says what one of the three maps holds. */
  predicate Belongs(l: Line, overflows: map<Key, nat>, dangles: map<Key, int>, stats: map<Key, (nat, nat)>) {
    match l
    case Overflow(site, delta) => Key(site, 0) in overflows && overflows[Key(site, 0)] == delta
    case Dangle(a, f, td) => Key(a, f) in dangles && dangles[Key(a, f)] == td
    case Stat(a, f, heads, tails) => Key(a, f) in stats && stats[Key(a, f)] == (heads, tails)
  }

  predicate SameEntry(a: Line, b: Line) {
    Section(a) == Section(b) && KeyOf(a) == KeyOf(b)
  }

  /** Lines about other entries leave an overflow or dangle entry as it is. */
  lemma {:induction false} UnreadStays(db: Db, lines: seq<Line>, l: Line)
    requires !l.Stat? && forall i :: 0 <= i < |lines| ==> !SameEntry(lines[i], l)
    ensures var r := LoadAll(db, lines);
            Belongs(l, r.overflows, r.dangles, r.stats) <==> Belongs(l, db.overflows, db.dangles, db.stats)
    decreases |lines|
  {
    if lines != [] {
      assert !SameEntry(lines[0], l);
      UnreadStays(Load(db, lines[0]), lines[1..], l);
    }
  }

  /** Of several overflow or dangle lines about one entry, the last one decides. */
  lemma {:induction false} LastLineDecides(db: Db, lines: seq<Line>, i: nat)
    requires i < |lines| && !lines[i].Stat?
    requires forall j :: i < j < |lines| ==> !SameEntry(lines[j], lines[i])
    ensures var r := LoadAll(db, lines); Belongs(lines[i], r.overflows, r.dangles, r.stats)
    decreases |lines|
  {
    if i == 0 {
      UnreadStays(Load(db, lines[0]), lines[1..], lines[0]);
    } else {
      LastLineDecides(Load(db, lines[0]), lines[1..], i - 1);
    }
  }

  /** The updates that the statistics lines about k make, in order. */
  function UpdatesOf(lines: seq<Line>, k: Key): seq<Update> {
    if lines == [] then []
    else
      var l := lines[|lines| - 1];
      UpdatesOf(lines[..|lines| - 1], k)
      + if l.Stat? && KeyOf(l) == k then [Update(l.heads, l.tails, 0)] else []
  }

  /** The two databases say the same about the statistics of k. */
  predicate SameStats(a: Db, b: Db, k: Key) {
    && (k in a.stats <==> k in b.stats) && Counts(a, k) == Counts(b, k)
    && (k in a.drags <==> k in b.drags) && Drag(a, k) == Drag(b, k)
  }

  lemma LoadLast(db: Db, front: seq<Line>, l: Line)
    ensures LoadAll(db, front + [l]) == Load(LoadAll(db, front), l)
  {
    LoadAppend(db, front, [l]);
    assert [l][1..] == [];
  }

  /** One more line and, when it is about k, one more update. */
  lemma StatLineStep(r: Db, u: Db, l: Line, k: Key)
    requires SameStats(r, u, k)
    ensures SameStats(Load(r, l), if l.Stat? && KeyOf(l) == k then AddStat(u, k, l.heads, l.tails, 0) else u, k)
  {
  }

  /** Reading lines does to the statistics of k what the updates of its own lines do. */
  lemma {:induction false} StatLinesAddUp(db: Db, lines: seq<Line>, k: Key)
    ensures SameStats(LoadAll(db, lines), AddAll(db, k, UpdatesOf(lines, k)), k)
    decreases |lines|
  {
    if lines != [] {
      var front, l := lines[..|lines| - 1], lines[|lines| - 1];
      var us, u := UpdatesOf(front, k), AddAll(db, k, UpdatesOf(front, k));
      StatLinesAddUp(db, front, k);
      LoadLast(db, front, l);
      assert front + [l] == lines;
      StatLineStep(LoadAll(db, front), u, l, k);
      if l.Stat? && KeyOf(l) == k {
        assert (us + [Update(l.heads, l.tails, 0)])[..|us|] == us;
      } else {
        assert us + [] == us;
      }
    }
  }

  // ---------------------------------------------------------------------
  // Iterating over a map in key order
  // ---------------------------------------------------------------------

  predicate IsLeast(keys: set<Key>, k: Key) {
    k in keys && forall l | l in keys :: l == k || Before(k, l)
  }

  lemma {:induction false} LeastExists(keys: set<Key>)
    requires keys != {}
    ensures exists k :: IsLeast(keys, k)
  {
    var x :| x in keys;
    var rest := keys - {x};
    if rest == {} {
      assert keys == {x};
      assert IsLeast(keys, x);
    } else {
      LeastExists(rest);
      var y :| IsLeast(rest, y);
      var k := if Before(x, y) then x else y;
      assert forall l | l in keys :: l == x || l in rest;
      assert IsLeast(keys, k);
    }
  }

  /** The keys in order. */
  ghost function Sorted(keys: set<Key>): (r: seq<Key>)
    ensures forall k :: k in r <==> k in keys
    ensures forall i, j :: 0 <= i < j < |r| ==> Before(r[i], r[j])
    decreases |keys|
  {
    if keys == {} then []
    else
      LeastExists(keys);
      var k :| IsLeast(keys, k);
      var rest := Sorted(keys - {k});
      [k] + rest
  }

  lemma LeastIsUnique(keys: set<Key>, k: Key, l: Key)
    requires IsLeast(keys, k) && IsLeast(keys, l)
    ensures k == l
  {
    assert k in keys && l in keys;
  }

  lemma SortedFrom(keys: set<Key>, k: Key)
    requires IsLeast(keys, k)
    ensures Sorted(keys) == [k] + Sorted(keys - {k})
  {
    var l :| IsLeast(keys, l) && Sorted(keys) == [l] + Sorted(keys - {l});
    LeastIsUnique(keys, k, l);
  }

  // ---------------------------------------------------------------------
  // Writing
  // ---------------------------------------------------------------------

  /** Static information about site pairs that got a patch of their own is dropped before writing. */
  function Erased(db: Db): Db {
    db.(stats := map k | k in db.stats && k !in db.updated :: db.stats[k])
  }

  function OverflowLines(m: map<Key, nat>, keys: seq<Key>): (r: seq<Line>)
    requires forall k | k in keys :: k in m
    ensures |r| == |keys|
  {
    if keys == [] then [] else [Overflow(keys[0].allocSite, m[keys[0]])] + OverflowLines(m, keys[1..])
  }

  function DangleLines(m: map<Key, int>, keys: seq<Key>): (r: seq<Line>)
    requires forall k | k in keys :: k in m
    ensures |r| == |keys|
  {
    if keys == [] then [] else [Dangle(keys[0].allocSite, keys[0].freeSite, m[keys[0]])] + DangleLines(m, keys[1..])
  }

  function StatLines(m: map<Key, (nat, nat)>, keys: seq<Key>): (r: seq<Line>)
    requires forall k | k in keys :: k in m
    ensures |r| == |keys|
  {
    if keys == [] then []
    else [Stat(keys[0].allocSite, keys[0].freeSite, m[keys[0]].0, m[keys[0]].1)] + StatLines(m, keys[1..])
  }

  ghost function OverflowText(m: map<Key, nat>, keys: set<Key>): string
    requires keys <= m.Keys
  {
    FormatAll(OverflowLines(m, Sorted(keys)))
  }

  lemma NextOverflow(m: map<Key, nat>, keys: set<Key>, k: Key)
    requires keys <= m.Keys && IsLeast(keys, k)
    ensures OverflowText(m, keys) == Format(Overflow(k.allocSite, m[k])) + OverflowText(m, keys - {k})
  {
    SortedFrom(keys, k);
    assert ([k] + Sorted(keys - {k}))[1..] == Sorted(keys - {k});
  }

  ghost function DangleText(m: map<Key, int>, keys: set<Key>): string
    requires keys <= m.Keys
  {
    FormatAll(DangleLines(m, Sorted(keys)))
  }

  lemma NextDangle(m: map<Key, int>, keys: set<Key>, k: Key)
    requires keys <= m.Keys && IsLeast(keys, k)
    ensures DangleText(m, keys) == Format(Dangle(k.allocSite, k.freeSite, m[k])) + DangleText(m, keys - {k})
  {
    SortedFrom(keys, k);
    assert ([k] + Sorted(keys - {k}))[1..] == Sorted(keys - {k});
  }

  ghost function StatText(m: map<Key, (nat, nat)>, keys: set<Key>): string
    requires keys <= m.Keys
  {
    FormatAll(StatLines(m, Sorted(keys)))
  }

  lemma NextStat(m: map<Key, (nat, nat)>, keys: set<Key>, k: Key)
    requires keys <= m.Keys && IsLeast(keys, k)
    ensures StatText(m, keys) == Format(Stat(k.allocSite, k.freeSite, m[k].0, m[k].1)) + StatText(m, keys - {k})
  {
    SortedFrom(keys, k);
    assert ([k] + Sorted(keys - {k}))[1..] == Sorted(keys - {k});
  }

  /** The lines of the file, in the order they are written. */
  ghost function Listing(db: Db): seq<Line> {
    OverflowLines(db.overflows, Sorted(db.overflows.Keys))
    + DangleLines(db.dangles, Sorted(db.dangles.Keys))
    + StatLines(db.stats, Sorted(db.stats.Keys))
  }

  /**
   * Overflows come before dangles before statistics, and lines of one kind are
   * ordered by the first site and then by the second, each pair once.
   */
  ghost predicate InOrder(lines: seq<Line>) {
    forall i, j :: 0 <= i < j < |lines| ==>
      var k, l := KeyOf(lines[i]), KeyOf(lines[j]);
      Section(lines[i]) < Section(lines[j])
      || (Section(lines[i]) == Section(lines[j])
          && (k.allocSite < l.allocSite || (k.allocSite == l.allocSite && k.freeSite < l.freeSite)))
  }

  /** There is a line for every entry of the three maps, with its values, and no other line. */
  ghost predicate ListsExactly(lines: seq<Line>, overflows: map<Key, nat>, dangles: map<Key, int>,
                               stats: map<Key, (nat, nat)>) {
    forall l :: l in lines <==> Belongs(l, overflows, dangles, stats)
  }

  lemma {:induction false} OverflowLineAt(m: map<Key, nat>, keys: seq<Key>, i: nat)
    requires (forall k | k in keys :: k in m) && i < |keys|
    ensures OverflowLines(m, keys)[i] == Overflow(keys[i].allocSite, m[keys[i]])
  {
    if i > 0 { OverflowLineAt(m, keys[1..], i - 1); }
  }

  lemma {:induction false} DangleLineAt(m: map<Key, int>, keys: seq<Key>, i: nat)
    requires (forall k | k in keys :: k in m) && i < |keys|
    ensures DangleLines(m, keys)[i] == Dangle(keys[i].allocSite, keys[i].freeSite, m[keys[i]])
  {
    if i > 0 { DangleLineAt(m, keys[1..], i - 1); }
  }

  lemma {:induction false} StatLineAt(m: map<Key, (nat, nat)>, keys: seq<Key>, i: nat)
    requires (forall k | k in keys :: k in m) && i < |keys|
    ensures StatLines(m, keys)[i] == Stat(keys[i].allocSite, keys[i].freeSite, m[keys[i]].0, m[keys[i]].1)
  {
    if i > 0 { StatLineAt(m, keys[1..], i - 1); }
  }

  lemma OverflowsListed(m: map<Key, nat>)
    requires forall k | k in m :: k.freeSite == 0
    ensures var lines := OverflowLines(m, Sorted(m.Keys)); InOrder(lines) && ListsExactly(lines, m, map[], map[])
  {
    var keys := Sorted(m.Keys);
    var lines := OverflowLines(m, keys);
    forall i: nat | i < |keys|
      ensures lines[i] == Overflow(keys[i].allocSite, m[keys[i]])
    {
      OverflowLineAt(m, keys, i);
    }
    ListedByKey(lines, keys, m, map[], map[]);
  }

  lemma DanglesListed(m: map<Key, int>)
    ensures var lines := DangleLines(m, Sorted(m.Keys)); InOrder(lines) && ListsExactly(lines, map[], m, map[])
  {
    var keys := Sorted(m.Keys);
    var lines := DangleLines(m, keys);
    forall i: nat | i < |keys|
      ensures lines[i] == Dangle(keys[i].allocSite, keys[i].freeSite, m[keys[i]])
    {
      DangleLineAt(m, keys, i);
    }
    ListedByKey(lines, keys, map[], m, map[]);
  }

  lemma StatsListed(m: map<Key, (nat, nat)>)
    ensures var lines := StatLines(m, Sorted(m.Keys)); InOrder(lines) && ListsExactly(lines, map[], map[], m)
  {
    var keys := Sorted(m.Keys);
    var lines := StatLines(m, keys);
    forall i: nat | i < |keys|
      ensures lines[i] == Stat(keys[i].allocSite, keys[i].freeSite, m[keys[i]].0, m[keys[i]].1)
    {
      StatLineAt(m, keys, i);
    }
    ListedByKey(lines, keys, map[], map[], m);
  }

  /** One line for each key in order, each with what its map holds, is the listing of that map. */
  lemma ListedByKey(lines: seq<Line>, keys: seq<Key>, o: map<Key, nat>, d: map<Key, int>, st: map<Key, (nat, nat)>)
    requires |lines| == |keys| && Ascending(keys)
    requires forall i :: 0 <= i < |keys| ==>
               KeyOf(lines[i]) == keys[i] && Belongs(lines[i], o, d, st) && Section(lines[i]) == Section(lines[0])
    requires forall k :: k in keys <==> k in o || k in d || k in st
    requires (d == map[] && st == map[]) || (o == map[] && st == map[]) || (o == map[] && d == map[])
    ensures InOrder(lines) && ListsExactly(lines, o, d, st)
  {
    forall l | Belongs(l, o, d, st)
      ensures l in lines
    {
      var i :| 0 <= i < |keys| && keys[i] == KeyOf(l);
      assert Belongs(lines[i], o, d, st) && KeyOf(lines[i]) == KeyOf(l);
      assert lines[i] == l;
    }
  }

  /** The listing has exactly the entries of the three maps, in order. */
  lemma ListingExact(db: Db)
    requires DbOk(db)
    ensures InOrder(Listing(db)) && ListsExactly(Listing(db), db.overflows, db.dangles, db.stats)
  {
    OverflowsListed(db.overflows);
    DanglesListed(db.dangles);
    StatsListed(db.stats);
    ListsJoined(OverflowLines(db.overflows, Sorted(db.overflows.Keys)),
                DangleLines(db.dangles, Sorted(db.dangles.Keys)),
                StatLines(db.stats, Sorted(db.stats.Keys)), db);
  }

  lemma ListsJoined(lo: seq<Line>, ld: seq<Line>, ls: seq<Line>, db: Db)
    requires InOrder(lo) && ListsExactly(lo, db.overflows, map[], map[])
    requires InOrder(ld) && ListsExactly(ld, map[], db.dangles, map[])
    requires InOrder(ls) && ListsExactly(ls, map[], map[], db.stats)
    ensures InOrder(lo + ld + ls) && ListsExactly(lo + ld + ls, db.overflows, db.dangles, db.stats)
  {
    var all := lo + ld + ls;
    assert forall l :: l in all <==> l in lo || l in ld || l in ls;
    forall l
      ensures l in lo ==> Section(l) == 0
      ensures l in ld ==> Section(l) == 1
      ensures l in ls ==> Section(l) == 2
    {
    }
  }

  // ---------------------------------------------------------------------
  // The round trip
  // ---------------------------------------------------------------------

  /** The part of m with the given keys. */
  function Sub<V>(m: map<Key, V>, keys: seq<Key>): (r: map<Key, V>)
    requires forall k | k in keys :: k in m
    ensures forall k :: k in r <==> k in keys
    ensures forall k | k in keys :: r[k] == m[k]
  {
    map k | k in keys :: m[k]
  }

  lemma SubFirst<V>(base: map<Key, V>, m: map<Key, V>, keys: seq<Key>)
    requires keys != [] && forall k | k in keys :: k in m
    ensures base[keys[0] := m[keys[0]]] + Sub(m, keys[1..]) == base + Sub(m, keys)
  {
  }

  lemma FirstThenRest(a: seq<Key>, keys: seq<Key>)
    requires keys != []
    ensures (a + [keys[0]]) + keys[1..] == a + keys
  {
  }

  lemma SubAll<V>(m: map<Key, V>, keys: seq<Key>)
    requires forall k :: k in keys <==> k in m
    ensures map[] + Sub(m, keys) == m
  {
  }

  ghost predicate Ascending(keys: seq<Key>) {
    forall i, j :: 0 <= i < j < |keys| ==> Before(keys[i], keys[j])
  }

  lemma {:induction false} LoadOverflows(db: Db, m: map<Key, nat>, keys: seq<Key>)
    requires forall k | k in keys :: k in m && k.freeSite == 0
    ensures LoadAll(db, OverflowLines(m, keys)) == db.(overflows := db.overflows + Sub(m, keys))
    decreases |keys|
  {
    if keys == [] {
      assert db.overflows + Sub(m, keys) == db.overflows;
    } else {
      LoadOverflows(db.(overflows := db.overflows[keys[0] := m[keys[0]]]), m, keys[1..]);
      assert OverflowLines(m, keys)[1..] == OverflowLines(m, keys[1..]);
      SubFirst(db.overflows, m, keys);
    }
  }

  lemma {:induction false} LoadDangles(db: Db, m: map<Key, int>, keys: seq<Key>)
    requires forall k | k in keys :: k in m
    ensures LoadAll(db, DangleLines(m, keys)) == db.(dangles := db.dangles + Sub(m, keys), updated := db.updated + keys)
    decreases |keys|
  {
    if keys == [] {
      assert db.dangles + Sub(m, keys) == db.dangles && db.updated + keys == db.updated;
    } else {
      var next := Load(db, DangleLines(m, keys)[0]);
      assert next == db.(dangles := db.dangles[keys[0] := m[keys[0]]], updated := db.updated + [keys[0]]);
      LoadDangles(next, m, keys[1..]);
      assert DangleLines(m, keys)[1..] == DangleLines(m, keys[1..]);
      SubFirst(db.dangles, m, keys);
      FirstThenRest(db.updated, keys);
    }
  }

  lemma FirstIsNew(keys: seq<Key>)
    requires keys != [] && Ascending(keys)
    ensures Ascending(keys[1..]) && keys[0] !in keys[1..]
  {
    forall i | 0 <= i < |keys[1..]|
      ensures keys[1..][i] != keys[0]
    {
      assert Before(keys[0], keys[i + 1]);
    }
  }

  /** Counts are added up, which for keys that are new to the database sets them. */
  lemma {:induction false} LoadStats(db: Db, m: map<Key, (nat, nat)>, keys: seq<Key>)
    requires Ascending(keys)
    requires forall k | k in keys :: k in m && k !in db.stats && m[k].0 < WORD_LIMIT && m[k].1 < WORD_LIMIT
    ensures LoadAll(db, StatLines(m, keys)) ==
            db.(stats := db.stats + Sub(m, keys), drags := LoadAll(db, StatLines(m, keys)).drags)
    decreases |keys|
  {
    if keys == [] {
      assert db.stats + Sub(m, keys) == db.stats;
    } else {
      FirstIsNew(keys);
      var next := Load(db, StatLines(m, keys)[0]);
      assert next == db.(stats := db.stats[keys[0] := m[keys[0]]], drags := next.drags);
      LoadStats(next, m, keys[1..]);
      assert StatLines(m, keys)[1..] == StatLines(m, keys[1..]);
      SubFirst(db.stats, m, keys);
    }
  }

  lemma {:induction false} LinesOk(db: Db, keys: seq<Key>)
    requires DbOk(db)
    ensures (forall k | k in keys :: k in db.overflows) ==>
              forall l | l in OverflowLines(db.overflows, keys) :: LineOk(l)
    ensures (forall k | k in keys :: k in db.dangles) ==> forall l | l in DangleLines(db.dangles, keys) :: LineOk(l)
    ensures (forall k | k in keys :: k in db.stats) ==> forall l | l in StatLines(db.stats, keys) :: LineOk(l)
    decreases |keys|
  {
    if keys != [] {
      LinesOk(db, keys[1..]);
    }
  }

  lemma ListingOk(db: Db)
    requires DbOk(db)
    ensures forall l | l in Listing(db) :: LineOk(l)
  {
    LinesOk(db, Sorted(db.overflows.Keys));
    LinesOk(db, Sorted(db.dangles.Keys));
    LinesOk(db, Sorted(db.stats.Keys));
  }

  /** The same patches: everything that is written to the file. */
  predicate SamePatches(a: Db, b: Db) {
    a.overflows == b.overflows && a.dangles == b.dangles && a.stats == b.stats
  }

  lemma LoadListing(db: Db)
    requires DbOk(db)
    ensures SamePatches(LoadAll(EMPTY, Listing(db)), db)
    ensures LoadAll(EMPTY, Listing(db)).updated == Sorted(db.dangles.Keys)
  {
    var ko, kd, ks := Sorted(db.overflows.Keys), Sorted(db.dangles.Keys), Sorted(db.stats.Keys);
    var lo, ld, ls := OverflowLines(db.overflows, ko), DangleLines(db.dangles, kd), StatLines(db.stats, ks);
    LoadThree(lo, ld, ls);
    LoadOverflows(EMPTY, db.overflows, ko);
    LoadDangles(LoadAll(EMPTY, lo), db.dangles, kd);
    LoadStats(LoadAll(LoadAll(EMPTY, lo), ld), db.stats, ks);
    SubAll(db.overflows, ko);
    SubAll(db.dangles, kd);
    SubAll(db.stats, ks);
    assert [] + kd == kd;
  }

  lemma LoadThree(a: seq<Line>, b: seq<Line>, c: seq<Line>)
    ensures LoadAll(EMPTY, a + b + c) == LoadAll(LoadAll(LoadAll(EMPTY, a), b), c)
  {
    LoadAppend(EMPTY, a + b, c);
    LoadAppend(EMPTY, a, b);
  }

  lemma ErasedOk(db: Db)
    requires DbOk(db)
    ensures DbOk(Erased(db)) && Erased(Erased(db)) == Erased(db)
  {
    assert Erased(Erased(db)).stats == Erased(db).stats;
  }

  /** The text of the file that output_patch writes. */
  ghost function Text(db: Db): string {
    FormatAll(Listing(Erased(db)))
  }

  /**
   * Writing a database, reading the text into an empty one and writing that
   * again: the patches are those that were left when the first was written,
   * nothing further is erased, and the text is the same.
   */
  lemma WriteReadWrite(db: Db)
    requires DbOk(db)
    ensures var back := LoadAll(EMPTY, Parse(Text(db)));
            && DbOk(back)
            && SamePatches(back, Erased(db))
            && SamePatches(Erased(back), Erased(db))
            && Text(back) == Text(db)
  {
    var kept := Erased(db);
    ErasedOk(db);
    ListingOk(kept);
    ParseFormat(Listing(kept));
    LoadListing(kept);
    LoadAllKeeps(EMPTY, Listing(kept));
    NothingToErase(LoadAll(EMPTY, Listing(kept)), kept);
  }

  lemma NothingToErase(back: Db, kept: Db)
    requires DbOk(back) && DbOk(kept) && SamePatches(back, kept) && Erased(kept) == kept
    ensures Erased(back) == back && Text(back) == Text(kept)
  {
    forall k | k in back.stats
      ensures k !in back.updated
    {
      assert k in Erased(kept).stats;
      assert k in back.updated <==> k in back.dangles;
      assert k in kept.updated <==> k in kept.dangles;
    }
    assert Erased(back).stats == back.stats;
    assert Listing(back) == Listing(kept);
  }

  // ---------------------------------------------------------------------
  // The database in place
  // ---------------------------------------------------------------------

  class PatchDatabase {
    var overflowPatches: map<Key, nat>
    var danglePatches: map<Key, int>
    var staticInfo: map<Key, (nat, nat)>
    var dragMap: map<Key, int>
    var updatedDangles: seq<Key>

    ghost function Contents(): Db
      reads this
    {
      Db(overflowPatches, danglePatches, staticInfo, dragMap, updatedDangles)
    }

    constructor ()
      ensures Contents() == EMPTY && DbOk(Contents())
    {
      overflowPatches, danglePatches, staticInfo, dragMap, updatedDangles := map[], map[], map[], map[], [];
    }

    method AddOverflowPatch(site: nat, delta: nat)
      requires DbOk(Contents()) && LineOk(Overflow(site, delta))
      modifies this
      ensures DbOk(Contents()) && Contents() == Load(old(Contents()), Overflow(site, delta))
    {
      LoadKeeps(Contents(), Overflow(site, delta));
      var erased := overflowPatches - {Key(site, 0)};
      assert erased[Key(site, 0) := delta] == overflowPatches[Key(site, 0) := delta];
      overflowPatches := erased[Key(site, 0) := delta];
    }

    method AddDanglePatch(allocSite: nat, freeSite: nat, td: int)
      requires DbOk(Contents()) && LineOk(Dangle(allocSite, freeSite, td))
      modifies this
      ensures DbOk(Contents()) && Contents() == Load(old(Contents()), Dangle(allocSite, freeSite, td))
    {
      LoadKeeps(Contents(), Dangle(allocSite, freeSite, td));
      var erased := danglePatches - {Key(allocSite, freeSite)};
      assert erased[Key(allocSite, freeSite) := td] == danglePatches[Key(allocSite, freeSite) := td];
      danglePatches := erased[Key(allocSite, freeSite) := td];
      updatedDangles := updatedDangles + [Key(allocSite, freeSite)];
    }

    method UpdateStaticInfo(key: Key, heads: nat, tails: nat, drag: int)
      requires DbOk(Contents()) && LineOk(Stat(key.allocSite, key.freeSite, heads, tails))
      modifies this
      ensures DbOk(Contents()) && Contents() == AddStat(old(Contents()), key, heads, tails, drag)
    {
      AddStatKeeps(Contents(), key, heads, tails, drag);
      AddCounts(key, heads, tails);
      LowerDrag(key, drag);
    }

    /** The smallest drag seen, where zero stands for none. */
    method LowerDrag(key: Key, drag: int)
      modifies `dragMap
      ensures dragMap == AddStat(old(Contents()), key, 0, 0, drag).drags
    {
      if key !in dragMap {
        dragMap := dragMap[key := 0];
      }
      if dragMap[key] == 0 || dragMap[key] > drag {
        dragMap := dragMap[key := drag];
      }
    }

    /** The two increments, on an entry that is created when it is missing. */
    method AddCounts(key: Key, heads: nat, tails: nat)
      modifies `staticInfo
      ensures staticInfo == AddStat(old(Contents()), key, heads, tails, 0).stats
    {
      ghost var before := staticInfo;
      if key !in staticInfo {
        staticInfo := staticInfo[key := (0, 0)];
      }
      var first := (staticInfo[key].0 + heads) % WORD_LIMIT;
      staticInfo := staticInfo[key := (first, staticInfo[key].1)];
      var second := (staticInfo[key].1 + tails) % WORD_LIMIT;
      staticInfo := staticInfo[key := (first, second)];
      assert staticInfo == before[key := (first, second)];
    }

    /** Adds what the lines of the text say; the text need not be well formed. */
    method ReadPatch(text: string)
      requires DbOk(Contents())
      modifies this
      ensures DbOk(Contents()) && Contents() == LoadAll(old(Contents()), Parse(text))
    {
      var h := ReadHeader(Stream(text, true));
      ghost var first := Contents();
      while h.input.ok
        invariant DbOk(Contents()) && h.site < WORD_LIMIT
        invariant LoadAll(Contents(), ParseFrom(h)) == LoadAll(first, Parse(text))
        decreases |h.input.rest|, h.input.ok
      {
        var (s, lines) := ReadBody(h);
        var next := ReadHeader(s);
        LoadTurn(Contents(), h);
        if lines != [] {
          Add(lines[0]);
        }
        h := if s.ok then next else h.(input := s);
      }
    }

    /** The three branches of the reading loop. */
    method Add(l: Line)
      requires DbOk(Contents()) && LineOk(l)
      modifies this
      ensures DbOk(Contents()) && Contents() == Load(old(Contents()), l)
    {
      match l
      case Overflow(site, delta) => AddOverflowPatch(site, delta);
      case Dangle(a, f, td) => AddDanglePatch(a, f, td);
      case Stat(a, f, heads, tails) => UpdateStaticInfo(Key(a, f), heads, tails, 0);
    }

    /**
     * Erases the static information of the pairs that got a patch of their own
     * and returns the text of the file: it reads as one line for each entry
     * that is left, overflows first, then dangles, then statistics, by key.
     */
    method OutputPatch() returns (text: string)
      requires DbOk(Contents())
      modifies this
      ensures Contents() == Erased(old(Contents())) && DbOk(Contents())
      ensures text == Text(old(Contents()))
      ensures forall k :: k in staticInfo <==> k in old(staticInfo) && k !in old(updatedDangles)
      ensures forall k | k in staticInfo :: staticInfo[k] == old(staticInfo[k])
      ensures unchanged(`overflowPatches) && unchanged(`danglePatches)
      ensures unchanged(`dragMap) && unchanged(`updatedDangles)
      ensures ListsExactly(Parse(text), overflowPatches, danglePatches, staticInfo) && InOrder(Parse(text))
    {
      ghost var kept := Erased(Contents());
      ErasedOk(Contents());
      ListingOk(kept);
      ParseFormat(Listing(kept));
      ListingExact(kept);
      var overflows := PrintOverflows();
      var dangles := PrintDangles();
      EraseUpdated();
      var stats := PrintStats();
      text := overflows + dangles + stats;
      ghost var db := Contents();
      ghost var lo := OverflowLines(db.overflows, Sorted(db.overflows.Keys));
      ghost var ld := DangleLines(db.dangles, Sorted(db.dangles.Keys));
      FormatAppend(lo + ld, StatLines(db.stats, Sorted(db.stats.Keys)));
      FormatAppend(lo, ld);
    }

    method PrintOverflows() returns (text: string)
      ensures text == OverflowText(overflowPatches, overflowPatches.Keys)
    {
      text := "";
      var left := overflowPatches.Keys;
      while left != {}
        invariant left <= overflowPatches.Keys
        invariant text + OverflowText(overflowPatches, left)
                  == OverflowText(overflowPatches, overflowPatches.Keys)
        decreases |left|
      {
        LeastExists(left);
        var k: Key :| k in left && IsLeast(left, k);
        NextOverflow(overflowPatches, left, k);
        Regroup(text, Format(Overflow(k.allocSite, overflowPatches[k])), OverflowText(overflowPatches, left - {k}));
        text := text + Format(Overflow(k.allocSite, overflowPatches[k]));
        left := left - {k};
      }
      assert OverflowText(overflowPatches, left) == "";
    }

    method PrintDangles() returns (text: string)
      ensures text == DangleText(danglePatches, danglePatches.Keys)
    {
      text := "";
      var left := danglePatches.Keys;
      while left != {}
        invariant left <= danglePatches.Keys
        invariant text + DangleText(danglePatches, left)
                  == DangleText(danglePatches, danglePatches.Keys)
        decreases |left|
      {
        LeastExists(left);
        var k: Key :| k in left && IsLeast(left, k);
        NextDangle(danglePatches, left, k);
        Regroup(text, Format(Dangle(k.allocSite, k.freeSite, danglePatches[k])), DangleText(danglePatches, left - {k}));
        text := text + Format(Dangle(k.allocSite, k.freeSite, danglePatches[k]));
        left := left - {k};
      }
      assert DangleText(danglePatches, left) == "";
    }

    method PrintStats() returns (text: string)
      ensures text == StatText(staticInfo, staticInfo.Keys)
    {
      text := "";
      var left := staticInfo.Keys;
      while left != {}
        invariant left <= staticInfo.Keys
        invariant text + StatText(staticInfo, left)
                  == StatText(staticInfo, staticInfo.Keys)
        decreases |left|
      {
        LeastExists(left);
        var k: Key :| k in left && IsLeast(left, k);
        NextStat(staticInfo, left, k);
        Regroup(text, Format(Stat(k.allocSite, k.freeSite, staticInfo[k].0, staticInfo[k].1)),
                StatText(staticInfo, left - {k}));
        text := text + Format(Stat(k.allocSite, k.freeSite, staticInfo[k].0, staticInfo[k].1));
        left := left - {k};
      }
      assert StatText(staticInfo, left) == "";
    }

    method EraseUpdated()
      modifies this
      ensures Contents() == Erased(old(Contents()))
    {
      ghost var stats := staticInfo;
      for i := 0 to |updatedDangles|
        invariant Contents() == old(Contents()).(stats := staticInfo)
        invariant staticInfo == map k | k in stats && k !in updatedDangles[..i] :: stats[k]
      {
        assert updatedDangles[..i + 1] == updatedDangles[..i] + [updatedDangles[i]];
        staticInfo := staticInfo - {updatedDangles[i]};
      }
    }
  }

  lemma {:induction false} FormatAppend(a: seq<Line>, b: seq<Line>)
    ensures FormatAll(a + b) == FormatAll(a) + FormatAll(b)
    decreases |a|
  {
    if a == [] {
      assert a + b == b;
    } else {
      assert (a + b)[1..] == a[1..] + b;
      FormatAppend(a[1..], b);
    }
  }
}
