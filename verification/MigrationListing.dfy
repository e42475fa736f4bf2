/**
 listMigrationFiles of src/lib/db/migrate-runner.ts on any directory: which names it takes, and that the order in
 which the directory yields them leaves no trace.
 */
module MigrationListing {
  import opened JsText
  import opened Numerals
  import opened MigrationRules

  /** A migration's name: three digits, an underscore, and ".sql" at the end. */
  lemma MigrationNames(f: string)
    ensures IsMigrationName(f)
       <==> (exists digits: string, rest: string ::
               |digits| == 3 && (forall i | 0 <= i < 3 :: IsDigit(digits[i])) && f == digits + "_" + rest)
            && (exists stem: string :: f == stem + ".sql")
  {
    if IsMigrationName(f) {
      assert f == f[..3] + "_" + f[4..] && f == f[..|f| - 4] + ".sql";
    }
    forall stem: string | f == stem + ".sql" ensures |f| >= 4 && f[|f| - 4..] == ".sql" {
      assert f[|stem|..] == ".sql";
    }
    forall digits: string, rest: string | |digits| == 3 && f == digits + "_" + rest
      ensures f[0] == digits[0] && f[1] == digits[1] && f[2] == digits[2] && f[3] == '_'
    {
    }
  }

  // ---------------------------------------------------------------- the order of names

  /** The order of names is strict and total. */
  lemma {:induction false} BeforeIsTotal(a: string, b: string)
    ensures Before(a, b) ==> !Before(b, a)
    ensures Before(a, b) || Before(b, a) || a == b
    decreases |a|
  {
    if a != "" && b != "" {
      BeforeIsTotal(a[1..], b[1..]);
      assert a == [a[0]] + a[1..] && b == [b[0]] + b[1..];
    }
  }

  lemma {:induction false} BeforeIsTransitive(a: string, b: string, c: string)
    requires Before(a, b) && Before(b, c)
    ensures Before(a, c)
    decreases |a|
  {
    if a != "" && a[0] == b[0] == c[0] {
      BeforeIsTransitive(a[1..], b[1..], c[1..]);
    }
  }

  /** No name stands behind a later one. */
  predicate InOrder(names: seq<string>) {
    forall i, j | 0 <= i < j < |names| :: !Before(names[j], names[i])
  }

  lemma {:induction false} InsertInOrder(f: string, sorted: seq<string>)
    requires InOrder(sorted)
    ensures InOrder(Insert(f, sorted))
    ensures forall g | g in Insert(f, sorted) :: g == f || g in sorted
    decreases |sorted|
  {
    if sorted != [] && Before(sorted[0], f) {
      InsertInOrder(f, sorted[1..]);
      BeforeIsTotal(sorted[0], f);
      Prepended(sorted[0], Insert(f, sorted[1..]));
    } else {
      forall g | g in sorted ensures !Before(g, f) {
        NotBeforeAny(f, sorted, g);
      }
      Prepended(f, sorted);
    }
  }

  lemma NotBeforeAny(f: string, sorted: seq<string>, g: string)
    requires InOrder(sorted) && g in sorted && !Before(sorted[0], f)
    ensures !Before(g, f)
  {
    var i :| 0 <= i < |sorted| && sorted[i] == g;
    BeforeIsTotal(sorted[0], f);
    BeforeIsTotal(g, sorted[0]);
    BeforeIsTotal(g, f);
    if Before(g, f) && sorted[0] != f && g != sorted[0] {
      BeforeIsTransitive(g, f, sorted[0]);
    }
  }

  lemma Prepended(f: string, sorted: seq<string>)
    requires InOrder(sorted) && forall g | g in sorted :: !Before(g, f)
    ensures InOrder([f] + sorted)
  {
  }

  lemma {:induction false} SortedInOrder(names: seq<string>)
    ensures InOrder(Sorted(names))
    decreases |names|
  {
    if names != [] {
      SortedInOrder(names[1..]);
      InsertInOrder(names[0], Sorted(names[1..]));
    }
  }

  /** One collection of names has one ordered listing. */
  lemma {:induction false} OneOrder(a: seq<string>, b: seq<string>)
    requires InOrder(a) && InOrder(b) && multiset(a) == multiset(b)
    ensures a == b
    decreases |a|
  {
    assert |a| == |multiset(a)| == |b|;
    if a != [] {
      assert a[0] in multiset(b) && b[0] in multiset(a);
      BeforeIsTotal(a[0], b[0]);
      assert a[0] == b[0];
      assert a == [a[0]] + a[1..] && b == [b[0]] + b[1..];
      assert multiset(a[1..]) == multiset(a) - multiset{a[0]} == multiset(b[1..]);
      OneOrder(a[1..], b[1..]);
    }
  }

  lemma {:induction false} MatchingCounts(names: seq<string>, f: string)
    ensures multiset(Matching(names))[f] == if IsMigrationName(f) then multiset(names)[f] else 0
    decreases |names|
  {
    if names != [] {
      MatchingCounts(names[1..], f);
      assert names == [names[0]] + names[1..];
    }
  }

  /** The listing is in the order of the names, and the order in which the directory yields them does not show. */
  lemma ListingIgnoresOrder(names: seq<string>, shuffled: seq<string>)
    requires multiset(names) == multiset(shuffled)
    ensures ListMigrationFiles(names) == ListMigrationFiles(shuffled)
    ensures InOrder(Names(ListMigrationFiles(names)))
  {
    forall f ensures multiset(Matching(names))[f] == multiset(Matching(shuffled))[f] {
      MatchingCounts(names, f);
      MatchingCounts(shuffled, f);
    }
    var a, b := Sorted(Matching(names)), Sorted(Matching(shuffled));
    SortedMembers(Matching(names));
    SortedMembers(Matching(shuffled));
    SortedInOrder(Matching(names));
    SortedInOrder(Matching(shuffled));
    OneOrder(a, b);
    assert Names(ListMigrationFiles(names)) == a;
  }
}
