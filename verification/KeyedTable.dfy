/** In-place reconciliation of the table body with a page of rows, by row key. */
module KeyedTable {
  import JsMap
  import opened Filters
  import opened JsSort
  import opened Options
  import opened ArbFeed

  /** A table row node. Placeholder rows (spinner, empty message) carry no key. */
  class Tr {
    const rowKey: Option<Key>
    /** The row this node was last made from or patched with. */
    var drawn: Option<Opp>

    constructor Keyed(o: Opp)
      ensures rowKey == Some(KeyOf(o)) && drawn == Some(o)
    {
      rowKey, drawn := Some(KeyOf(o)), Some(o);
    }

    constructor Placeholder()
      ensures rowKey == None && drawn == None
    {
      rowKey, drawn := None, None;
    }

    method Patch(o: Opp)
      modifies this
      ensures drawn == Some(o)
    {
      drawn := Some(o);
    }
  }

  // ---------------------------------------------------------------- child lists

  /** No two keyed rows carry the same key. */
  ghost predicate KeysDistinct(rows: seq<Tr>) {
    forall i, j :: 0 <= i < j < |rows| && rows[i].rowKey.Some? ==> rows[i].rowKey != rows[j].rowKey
  }

  lemma SameKeySameRow(rows: seq<Tr>, x: Tr, y: Tr)
    requires KeysDistinct(rows) && x in rows && y in rows && x.rowKey.Some? && x.rowKey == y.rowKey
    ensures x == y
  {
    var i :| 0 <= i < |rows| && rows[i] == x;
    var j :| 0 <= j < |rows| && rows[j] == y;
  }

  lemma KeysDistinctPart(part: seq<Tr>, rows: seq<Tr>)
    requires NoRepeats(part) && KeysDistinct(rows)
    requires forall i :: 0 <= i < |part| ==> part[i] in rows
    ensures KeysDistinct(part)
  {
    forall i, j | 0 <= i < j < |part| && part[i].rowKey.Some?
      ensures part[i].rowKey != part[j].rowKey
    {
      if part[i].rowKey == part[j].rowKey {
        SameKeySameRow(rows, part[i], part[j]);
      }
    }
  }

  predicate Wanted(tr: Tr, wanted: set<Key>) {
    tr.rowKey.Some? && tr.rowKey.value in wanted
  }

  /** The rows that outlive a render, in their present order. */
  function Survivors(rows: seq<Tr>, wanted: set<Key>): seq<Tr> {
    if rows == [] then []
    else (if Wanted(rows[0], wanted) then [rows[0]] else []) + Survivors(rows[1..], wanted)
  }

  /** The list after removing one node. */
  function Without(s: seq<Tr>, x: Tr): seq<Tr> {
    if s == [] then [] else if s[0] == x then s[1..] else [s[0]] + Without(s[1..], x)
  }

  /** The list after removing several nodes. */
  function Excluding(s: seq<Tr>, gone: seq<Tr>): seq<Tr> {
    if s == [] then [] else (if s[0] in gone then [] else [s[0]]) + Excluding(s[1..], gone)
  }

  /** The first position of a node, or the length. */
  function Position(s: seq<Tr>, x: Tr): (i: nat)
    ensures i <= |s| && (i < |s| ==> s[i] == x) && x !in s[..i]
  {
    if s == [] || s[0] == x then 0
    else
      assert s[..Position(s[1..], x) + 1] == [s[0]] + s[1..][..Position(s[1..], x)];
      Position(s[1..], x) + 1
  }

  /** The DOM's insertBefore: a node already in the list moves; no reference node means the end. */
  function InsertedBefore(s: seq<Tr>, tr: Tr, ref: Tr?): seq<Tr> {
    var rest := Without(s, tr);
    var at := if ref == null then |rest| else Position(rest, ref);
    rest[..at] + [tr] + rest[at..]
  }

  lemma {:induction false} WithoutAbsent(s: seq<Tr>, x: Tr)
    requires x !in s
    ensures Without(s, x) == s
  {
    if s != [] {
      WithoutAbsent(s[1..], x);
    }
  }

  lemma {:induction false} WithoutConcat(a: seq<Tr>, b: seq<Tr>, x: Tr)
    requires x !in a
    ensures Without(a + b, x) == a + Without(b, x)
  {
    if a == [] {
      assert a + b == b;
    } else {
      WithoutConcat(a[1..], b, x);
      assert (a + b)[1..] == a[1..] + b;
    }
  }

  lemma {:induction false} WithoutMember(s: seq<Tr>, x: Tr, y: Tr)
    requires NoRepeats(s)
    ensures y in Without(s, x) <==> y in s && y != x
  {
    if s != [] {
      WithoutMember(s[1..], x, y);
      assert s[0] !in s[1..];
      assert s == [s[0]] + s[1..];
    }
  }

  lemma {:induction false} WithoutNoRepeats(s: seq<Tr>, x: Tr)
    requires NoRepeats(s)
    ensures NoRepeats(Without(s, x))
  {
    if s != [] {
      WithoutNoRepeats(s[1..], x);
      WithoutMember(s[1..], x, s[0]);
      assert s[0] !in s[1..];
    }
  }

  lemma {:induction false} SurvivorsNoRepeats(rows: seq<Tr>, wanted: set<Key>)
    requires NoRepeats(rows)
    ensures NoRepeats(Survivors(rows, wanted))
  {
    if rows != [] {
      SurvivorsNoRepeats(rows[1..], wanted);
      SurvivorsMember(rows[1..], wanted, rows[0]);
      assert rows[0] !in rows[1..];
    }
  }

  lemma {:induction false} ExcludingNoRepeats(s: seq<Tr>, gone: seq<Tr>)
    requires NoRepeats(s)
    ensures NoRepeats(Excluding(s, gone))
  {
    if s != [] {
      ExcludingNoRepeats(s[1..], gone);
      ExcludingMember(s[1..], gone, s[0]);
      assert s[0] !in s[1..];
    }
  }

  lemma {:induction false} ExcludingNone(s: seq<Tr>)
    ensures Excluding(s, []) == s
  {
    if s != [] {
      ExcludingNone(s[1..]);
    }
  }

  lemma {:induction false} ExcludingOneMore(s: seq<Tr>, gone: seq<Tr>, x: Tr)
    requires NoRepeats(s)
    ensures Without(Excluding(s, gone), x) == Excluding(s, gone + [x])
  {
    if s != [] {
      var rest := Excluding(s[1..], gone);
      ExcludingOneMore(s[1..], gone, x);
      ExcludingMember(s[1..], gone, s[0]);
      assert s[0] !in s[1..];
      if s[0] == x {
        WithoutAbsent(rest, x);
      }
      var more := Excluding(s[1..], gone + [x]);
      if s[0] in gone {
        assert Excluding(s, gone) == rest && Excluding(s, gone + [x]) == more;
      } else if s[0] == x {
        assert Excluding(s, gone) == [x] + rest && Excluding(s, gone + [x]) == more;
        assert ([x] + rest)[1..] == rest;
      } else {
        assert Excluding(s, gone) == [s[0]] + rest && Excluding(s, gone + [x]) == [s[0]] + more;
        assert ([s[0]] + rest)[1..] == rest;
      }
    }
  }

  function Unkeyed(rows: seq<Tr>): seq<Tr> {
    if rows == [] then [] else (if rows[0].rowKey.None? then [rows[0]] else []) + Unkeyed(rows[1..])
  }

  /** The keyed rows that the page does not list. */
  function Unwanted(rows: seq<Tr>, wanted: set<Key>): seq<Tr> {
    if rows == [] then []
    else
      (if rows[0].rowKey.Some? && !Wanted(rows[0], wanted) then [rows[0]] else []) + Unwanted(rows[1..], wanted)
  }

  /** The survivors keep their order. */
  lemma {:induction false} SurvivorsIsFilter(rows: seq<Tr>, wanted: set<Key>)
    ensures Survivors(rows, wanted) == Filter(rows, (tr: Tr) => Wanted(tr, wanted))
  {
    if rows != [] {
      SurvivorsIsFilter(rows[1..], wanted);
      FilterFront(rows, (tr: Tr) => Wanted(tr, wanted));
    }
  }

  lemma {:induction false} UnkeyedMember(rows: seq<Tr>, x: Tr)
    ensures x in Unkeyed(rows) <==> x in rows && x.rowKey.None?
  {
    if rows != [] {
      UnkeyedMember(rows[1..], x);
      assert rows == [rows[0]] + rows[1..];
    }
  }

  lemma {:induction false} UnwantedMember(rows: seq<Tr>, wanted: set<Key>, x: Tr)
    ensures x in Unwanted(rows, wanted) <==> x in rows && x.rowKey.Some? && !Wanted(x, wanted)
  {
    if rows != [] {
      UnwantedMember(rows[1..], wanted, x);
      assert rows == [rows[0]] + rows[1..];
    }
  }

  lemma {:induction false} ExcludingMember(s: seq<Tr>, gone: seq<Tr>, x: Tr)
    ensures x in Excluding(s, gone) <==> x in s && x !in gone
  {
    if s != [] {
      ExcludingMember(s[1..], gone, x);
      assert s == [s[0]] + s[1..];
    }
  }

  lemma {:induction false} SurvivorsMember(rows: seq<Tr>, wanted: set<Key>, x: Tr)
    ensures x in Survivors(rows, wanted) <==> x in rows && Wanted(x, wanted)
  {
    if rows != [] {
      SurvivorsMember(rows[1..], wanted, x);
      assert rows == [rows[0]] + rows[1..];
    }
  }

  /** Removing the placeholders and then the unwanted keys leaves the survivors. */
  lemma {:induction false} TwoRemovals(s: seq<Tr>, unkeyed: seq<Tr>, unwanted: seq<Tr>, wanted: set<Key>)
    requires forall x :: x in s ==> (x in unkeyed || x in unwanted <==> !Wanted(x, wanted))
    ensures Excluding(Excluding(s, unkeyed), unwanted) == Survivors(s, wanted)
  {
    if s != [] {
      TwoRemovals(s[1..], unkeyed, unwanted, wanted);
      assert s[0] in s;
      if s[0] !in unkeyed {
        assert ([s[0]] + Excluding(s[1..], unkeyed))[1..] == Excluding(s[1..], unkeyed);
      } else {
        assert Excluding(s, unkeyed) == Excluding(s[1..], unkeyed);
      }
    }
  }

  lemma PruneIsSurvivors(rows: seq<Tr>, wanted: set<Key>)
    ensures var keyed := Excluding(rows, Unkeyed(rows));
            Excluding(keyed, Unwanted(keyed, wanted)) == Survivors(rows, wanted)
  {
    var keyed := Excluding(rows, Unkeyed(rows));
    forall x | x in rows
      ensures x in Unkeyed(rows) || x in Unwanted(keyed, wanted) <==> !Wanted(x, wanted)
    {
      UnkeyedMember(rows, x);
      UnwantedMember(keyed, wanted, x);
      ExcludingMember(rows, Unkeyed(rows), x);
    }
    TwoRemovals(rows, Unkeyed(rows), Unwanted(keyed, wanted), wanted);
  }

  // ---------------------------------------------------------------- pages

  /** The page's rows: a slice that is shorter, or empty, past the end. */
  function PageOf(filtered: seq<Opp>, start: nat, size: nat): seq<Opp> {
    var lo := if start < |filtered| then start else |filtered|;
    var hi := if start + size < |filtered| then start + size else |filtered|;
    filtered[lo..hi]
  }

  /** How many rows a page has: a full page, or what is left from its start on. */
  ghost function PageLength(total: nat, start: nat, size: nat): nat {
    if start >= total then 0 else if total - start < size then total - start else size
  }

  /** A page holds the filtered rows from its start on. */
  lemma PageReads(filtered: seq<Opp>, start: nat, size: nat)
    ensures |PageOf(filtered, start, size)| == PageLength(|filtered|, start, size)
    ensures forall i :: 0 <= i < |PageOf(filtered, start, size)| ==>
              start + i < |filtered| && PageOf(filtered, start, size)[i] == filtered[start + i]
  {
  }

  /** Every row is on exactly the page that its place names. */
  lemma RowOnPage(filtered: seq<Opp>, size: nat, i: nat)
    requires size > 0 && i < |filtered|
    ensures var page := PageOf(filtered, i / size * size, size);
            i % size < |page| && page[i % size] == filtered[i]
  {
    assert i / size * size + i % size == i;
    PageReads(filtered, i / size * size, size);
  }

  /** The first pages, one after another. */
  ghost function FirstPages(filtered: seq<Opp>, size: nat, n: nat): seq<Opp> {
    if n == 0 then [] else FirstPages(filtered, size, n - 1) + PageOf(filtered, (n - 1) * size, size)
  }

  /** Leafing through the pages shows every filtered row once, in order. */
  lemma {:induction false} PagesJoin(filtered: seq<Opp>, size: nat, n: nat)
    ensures FirstPages(filtered, size, n) == filtered[..if n * size < |filtered| then n * size else |filtered|]
  {
    if n > 0 {
      PagesJoin(filtered, size, n - 1);
      assert n * size == (n - 1) * size + size && (n - 1) * size >= 0;
      NextPage(filtered, (n - 1) * size, size);
    }
  }

  lemma NextPage(filtered: seq<Opp>, start: nat, size: nat)
    ensures filtered[..if start < |filtered| then start else |filtered|] + PageOf(filtered, start, size) ==
            filtered[..if start + size < |filtered| then start + size else |filtered|]
  {
  }

  lemma PageKeysDistinct(filtered: seq<Opp>, start: nat, size: nat)
    requires NoRepeats(PageKeys(filtered))
    ensures NoRepeats(PageKeys(PageOf(filtered, start, size)))
  {
    var lo := if start < |filtered| then start else |filtered|;
    var page := PageOf(filtered, start, size);
    assert forall i :: 0 <= i < |page| ==> PageKeys(page)[i] == PageKeys(filtered)[lo + i];
  }

  /** Whatever the filters and the sort order, the rows cut from the live feed have distinct keys,
      so a render may be fed with them. */
  lemma FilteredFeedKeysDistinct(rows: JsMap.Entries<Key, Opp>, filtered: seq<Opp>)
    requires WellKeyed(rows) && multiset(filtered) <= multiset(JsMap.Values(rows))
    ensures NoRepeats(PageKeys(filtered))
  {
    var screen := JsMap.Values(rows);
    forall i, j | 0 <= i < j < |filtered|
      ensures PageKeys(filtered)[i] != PageKeys(filtered)[j]
    {
      var x, y := filtered[i], filtered[j];
      assert x in multiset(filtered) && y in multiset(filtered);
      assert x in multiset(screen) && y in multiset(screen);
      if KeyOf(x) == KeyOf(y) {
        ScreenKeysDistinct(rows);
        var a :| 0 <= a < |screen| && screen[a] == x;
        var b :| 0 <= b < |screen| && screen[b] == y;
        assert x == y;
        CountAtMostOnce(screen, x);
        CountTwice(filtered, i, j);
      }
    }
  }

  function KeysOfRows(rows: seq<Tr>): (r: seq<Option<Key>>)
    ensures |r| == |rows| && forall i :: 0 <= i < |r| ==> r[i] == rows[i].rowKey
  {
    seq(|rows|, i requires 0 <= i < |rows| => rows[i].rowKey)
  }

  function PageKeys(page: seq<Opp>): (r: seq<Option<Key>>)
    ensures |r| == |page| && forall i :: 0 <= i < |r| ==> r[i] == Some(KeyOf(page[i]))
  {
    seq(|page|, i requires 0 <= i < |page| => Some(KeyOf(page[i])))
  }

  /** The page keys that already had a row, in page order. */
  function Kept(keys: seq<Option<Key>>, rows: seq<Tr>): seq<Option<Key>> {
    if keys == [] then []
    else (if keys[0] in KeysOfRows(rows) then [keys[0]] else []) + Kept(keys[1..], rows)
  }

  /** The surviving rows stand in the order in which the page lists them. */
  ghost predicate InPageOrder(survivors: seq<Tr>, page: seq<Opp>) {
    KeysOfRows(survivors) == Kept(PageKeys(page), survivors)
  }

  lemma {:induction false} KeptAll(keys: seq<Option<Key>>, rows: seq<Tr>)
    requires forall k :: k in keys ==> k in KeysOfRows(rows)
    ensures Kept(keys, rows) == keys
  {
    if keys != [] {
      assert keys[0] in keys;
      KeptAll(keys[1..], rows);
    }
  }

  // ---------------------------------------------------------------- the table body

  /** The repositioning pass between two places: `placed` is final, the survivors in `rest` still wait. */
  ghost predicate Passing(placed: seq<Tr>, rest: seq<Tr>, survivors: seq<Tr>, page: seq<Opp>)
    requires |placed| <= |page|
  {
    && NoRepeats(placed) && NoRepeats(rest) && Apart(placed, rest)
    && (forall j :: 0 <= j < |rest| ==> rest[j] in survivors && rest[j].rowKey in PageKeys(page)[|placed|..])
    && (forall j :: 0 <= j < |placed| ==> placed[j].rowKey == Some(KeyOf(page[j])))
  }

  ghost predicate Apart(a: seq<Tr>, b: seq<Tr>) {
    forall i, j :: 0 <= i < |a| && 0 <= j < |b| ==> a[i] != b[j]
  }

  lemma AppendNoRepeats(a: seq<Tr>, b: seq<Tr>)
    requires NoRepeats(a) && NoRepeats(b) && Apart(a, b)
    ensures NoRepeats(a + b)
  {
    forall i, j | 0 <= i < j < |a + b|
      ensures (a + b)[i] != (a + b)[j]
    {
    }
  }

  /** The node put in place `|placed|` is moved or inserted right behind the placed prefix. */
  lemma PutInPlace(placed: seq<Tr>, rest: seq<Tr>, tr: Tr)
    requires NoRepeats(rest) && Apart(placed, rest) && tr !in placed
    requires rest == [] || rest[0] != tr
    ensures var ref: Tr? := if rest == [] then null else rest[0];
            InsertedBefore(placed + rest, tr, ref) == placed + [tr] + Without(rest, tr)
  {
    WithoutConcat(placed, rest, tr);
    var left := Without(rest, tr);
    var base := placed + left;
    if rest == [] {
      assert base[..|base|] == base;
    } else {
      var ref := rest[0];
      assert left[0] == ref == base[|placed|] && ref in rest;
      FirstAfter(placed, left, ref);
      assert base[..|placed|] == placed && base[|placed|..] == left;
    }
  }

  lemma {:induction false} FirstAfter(a: seq<Tr>, b: seq<Tr>, x: Tr)
    requires x !in a && b != [] && b[0] == x
    ensures Position(a + b, x) == |a|
  {
    if a != [] {
      FirstAfter(a[1..], b, x);
      assert (a + b)[1..] == a[1..] + b;
    }
  }

  /** Filling one more place keeps the pass on track, whether the node waited in the table or is new. */
  lemma PassStep(placed: seq<Tr>, rest: seq<Tr>, survivors: seq<Tr>, page: seq<Opp>, tr: Tr)
    requires |placed| < |page| && Passing(placed, rest, survivors, page)
    requires KeysDistinct(survivors)
    requires tr.rowKey == Some(KeyOf(page[|placed|])) && tr !in placed
    requires tr in survivors || tr.rowKey !in KeysOfRows(survivors)
    ensures Passing(placed + [tr], Without(rest, tr), survivors, page)
  {
    var left := Without(rest, tr);
    WithoutNoRepeats(rest, tr);
    AppendNoRepeats(placed, [tr]);
    forall j | 0 <= j < |left|
      ensures left[j] != tr && left[j] !in placed
      ensures left[j] in survivors && left[j].rowKey in PageKeys(page)[|placed| + 1..]
    {
      assert left[j] in left;
      WithoutMember(rest, tr, left[j]);
      var k :| 0 <= k < |rest| && rest[k] == left[j];
      StillWaits(left[j], survivors, page, |placed|, tr);
    }
  }

  lemma StillWaits(x: Tr, survivors: seq<Tr>, page: seq<Opp>, i: nat, tr: Tr)
    requires i < |page| && x in survivors && x.rowKey in PageKeys(page)[i..]
    requires KeysDistinct(survivors) && tr.rowKey == Some(KeyOf(page[i])) && x != tr
    requires tr in survivors || tr.rowKey !in KeysOfRows(survivors)
    ensures x.rowKey in PageKeys(page)[i + 1..]
  {
    var keys := PageKeys(page);
    assert keys[i..] == [keys[i]] + keys[i + 1..];
    KeyListed(survivors, x);
    if tr in survivors && x.rowKey == tr.rowKey {
      SameKeySameRow(survivors, x, tr);
    }
  }

  lemma KeyListed(rows: seq<Tr>, x: Tr)
    requires x in rows
    ensures x.rowKey in KeysOfRows(rows)
  {
    var j :| 0 <= j < |rows| && rows[j] == x;
    assert KeysOfRows(rows)[j] == x.rowKey;
  }

  /** Bookkeeping of the pass: no insert so far means nothing has moved, and when the survivors already stand
      in page order every insert so far was for a key that had no row. */
  ghost predicate Counted(placed: seq<Tr>, rest: seq<Tr>, survivors: seq<Tr>, page: seq<Opp>, inserted: int)
    requires |placed| <= |page|
  {
    && inserted >= 0
    && (inserted == 0 ==> placed + rest == survivors)
    && (InPageOrder(survivors, page) ==>
          && KeysOfRows(rest) == Kept(PageKeys(page)[|placed|..], survivors)
          && inserted == |placed| - (|survivors| - |rest|))
  }

  lemma CountStep(placed: seq<Tr>, rest: seq<Tr>, survivors: seq<Tr>, page: seq<Opp>, tr: Tr, inserted: int)
    requires |placed| < |page| && Counted(placed, rest, survivors, page, inserted)
    requires forall j :: 0 <= j < |rest| ==> rest[j] in survivors
    requires KeysDistinct(survivors) && tr.rowKey == Some(KeyOf(page[|placed|]))
    requires tr in survivors || (tr !in rest && tr.rowKey !in KeysOfRows(survivors))
    ensures Counted(placed + [tr], Without(rest, tr), survivors, page,
                    if rest != [] && rest[0] == tr then inserted else inserted + 1)
  {
    hide InPageOrder, KeysDistinct;
    if InPageOrder(survivors, page) {
      OrderStep(|placed|, rest, survivors, page, tr);
    }
    if rest != [] && rest[0] == tr {
      StaysInFront(placed, rest, tr);
    }
  }

  lemma StaysInFront(placed: seq<Tr>, rest: seq<Tr>, tr: Tr)
    requires rest != [] && rest[0] == tr
    ensures placed + [tr] + Without(rest, tr) == placed + rest && |Without(rest, tr)| == |rest| - 1
  {
  }

  /** Everything one iteration needs to know. */
  lemma NextPlace(placed: seq<Tr>, rest: seq<Tr>, survivors: seq<Tr>, page: seq<Opp>, tr: Tr, inserted: int)
    requires |placed| < |page|
    requires Passing(placed, rest, survivors, page) && Counted(placed, rest, survivors, page, inserted)
    requires KeysDistinct(survivors) && NoRepeats(PageKeys(page)) && tr.rowKey == Some(KeyOf(page[|placed|]))
    requires tr in survivors || tr.rowKey !in KeysOfRows(survivors)
    ensures tr !in placed
    ensures Passing(placed + [tr], Without(rest, tr), survivors, page)
    ensures var stays := rest != [] && rest[0] == tr;
            var ref: Tr? := if rest == [] then null else rest[0];
            && Counted(placed + [tr], Without(rest, tr), survivors, page, if stays then inserted else inserted + 1)
            && placed + [tr] + Without(rest, tr) ==
               if stays then placed + rest else InsertedBefore(placed + rest, tr, ref)
  {
    hide InsertedBefore, Counted, KeysDistinct;
    if tr in rest {
      var j :| 0 <= j < |rest| && rest[j] == tr;
      KeyListed(survivors, rest[j]);
    }
    PlacedKeysDiffer(placed, rest, survivors, page);
    CountStep(placed, rest, survivors, page, tr, inserted);
    PassStep(placed, rest, survivors, page, tr);
    if rest != [] && rest[0] == tr {
      StaysInFront(placed, rest, tr);
    } else {
      PutInPlace(placed, rest, tr);
    }
  }

  lemma KeptStep(keys: seq<Option<Key>>, i: nat, rows: seq<Tr>)
    requires i < |keys|
    ensures Kept(keys[i..], rows) == (if keys[i] in KeysOfRows(rows) then [keys[i]] else []) + Kept(keys[i + 1..], rows)
  {
    assert keys[i..][0] == keys[i] && keys[i..][1..] == keys[i + 1..];
  }

  /** While the survivors stand in page order, the next one is either first in line or not on the table. */
  lemma OrderStep(i: nat, rest: seq<Tr>, survivors: seq<Tr>, page: seq<Opp>, tr: Tr)
    requires i < |page| && KeysDistinct(survivors)
    requires forall j :: 0 <= j < |rest| ==> rest[j] in survivors
    requires KeysOfRows(rest) == Kept(PageKeys(page)[i..], survivors)
    requires tr.rowKey == Some(KeyOf(page[i]))
    requires tr in survivors || (tr !in rest && tr.rowKey !in KeysOfRows(survivors))
    ensures KeysOfRows(Without(rest, tr)) == Kept(PageKeys(page)[i + 1..], survivors)
    ensures tr in survivors ==> rest != [] && rest[0] == tr && Without(rest, tr) == rest[1..]
    ensures tr !in survivors ==> Without(rest, tr) == rest
  {
    var keys := PageKeys(page);
    KeptStep(keys, i, survivors);
    if tr in survivors {
      KeyListed(survivors, tr);
      assert KeysOfRows(rest)[0] == keys[i];
      SameKeySameRow(survivors, rest[0], tr);
      assert KeysOfRows(rest[1..]) == KeysOfRows(rest)[1..];
    } else {
      WithoutAbsent(rest, tr);
    }
  }

  /** The nodes show the latest data of the page's first rows. */
  ghost predicate Drawn(placed: seq<Tr>, page: seq<Opp>)
    requires |placed| <= |page|
    reads placed
  {
    forall j :: 0 <= j < |placed| ==> placed[j].drawn == Some(page[j])
  }

  /** Rows with a known key sit in the node they already had. */
  ghost predicate Reused(placed: seq<Tr>, page: seq<Opp>, byKey: map<Key, Tr>)
    requires |placed| <= |page|
  {
    forall j :: 0 <= j < |placed| && KeyOf(page[j]) in byKey ==> placed[j] == byKey[KeyOf(page[j])]
  }

  lemma ReuseStep(placed: seq<Tr>, page: seq<Opp>, byKey: map<Key, Tr>, tr: Tr)
    requires |placed| < |page| && Reused(placed, page, byKey)
    requires KeyOf(page[|placed|]) in byKey ==> tr == byKey[KeyOf(page[|placed|])]
    ensures Reused(placed + [tr], page, byKey)
  {
  }

  /** The index of the pruned table: a page key has an entry exactly when a survivor carries it. */
  ghost predicate Sourced(page: seq<Opp>, byKey: map<Key, Tr>, survivors: seq<Tr>, before: seq<Tr>) {
    && (forall j :: 0 <= j < |survivors| ==> survivors[j] in before && survivors[j].rowKey in PageKeys(page))
    && (forall i :: 0 <= i < |page| ==>
          var k := KeyOf(page[i]);
          if k in byKey then byKey[k] in survivors && byKey[k].rowKey == Some(k)
          else Some(k) !in KeysOfRows(survivors))
  }

  lemma SourceOf(page: seq<Opp>, byKey: map<Key, Tr>, survivors: seq<Tr>, before: seq<Tr>, i: nat)
    requires i < |page| && Sourced(page, byKey, survivors, before)
    ensures var k := KeyOf(page[i]);
            if k in byKey then byKey[k] in survivors && byKey[k] in before && byKey[k].rowKey == Some(k)
            else Some(k) !in KeysOfRows(survivors)
  {
  }

  class TableBody {
    var children: seq<Tr>
    /** How many times a row was inserted or moved so far. */
    var inserts: nat

    ghost predicate Valid()
      reads this, children
    {
      NoRepeats(children) && KeysDistinct(children)
    }

    constructor ()
      ensures Valid() && children == [] && inserts == 0
    {
      children, inserts := [], 0;
    }

    method InsertBefore(tr: Tr, ref: Tr?)
      modifies this
      ensures children == InsertedBefore(old(children), tr, ref)
      ensures inserts == old(inserts) + 1
    {
      var rest := Without(children, tr);
      var at := if ref == null then |rest| else Position(rest, ref);
      children := rest[..at] + [tr] + rest[at..];
      inserts := inserts + 1;
    }

    method RemoveAll(gone: seq<Tr>)
      requires NoRepeats(children)
      modifies this`children
      ensures children == Excluding(old(children), gone)
    {
      var i := 0;
      ExcludingNone(children);
      while i < |gone|
        invariant 0 <= i <= |gone|
        invariant children == Excluding(old(children), gone[..i])
      {
        ExcludingOneMore(old(children), gone[..i], gone[i]);
        assert gone[..i + 1] == gone[..i] + [gone[i]];
        children := Without(children, gone[i]);
        i := i + 1;
      }
      assert gone[..i] == gone;
    }

    /** Replaces the whole body by one un-keyed row: the spinner or the empty message. */
    method ShowPlaceholder()
      modifies this`children
      ensures Valid() && |children| == 1 && fresh(children[0]) && children[0].rowKey == None
    {
      var tr := new Tr.Placeholder();
      children := [tr];
    }

    /** The keyed rows by key. */
    method IndexRows(rows: seq<Tr>) returns (byKey: map<Key, Tr>)
      requires KeysDistinct(rows)
      ensures forall k :: k in byKey <==> Some(k) in KeysOfRows(rows)
      ensures forall k :: k in byKey ==> byKey[k] in rows && byKey[k].rowKey == Some(k)
    {
      byKey := map[];
      var i := 0;
      while i < |rows|
        invariant 0 <= i <= |rows|
        invariant forall k :: k in byKey <==> Some(k) in KeysOfRows(rows)[..i]
        invariant forall k :: k in byKey ==> byKey[k] in rows && byKey[k].rowKey == Some(k)
      {
        assert KeysOfRows(rows)[..i + 1] == KeysOfRows(rows)[..i] + [rows[i].rowKey];
        if rows[i].rowKey.Some? {
          byKey := byKey[rows[i].rowKey.value := rows[i]];
        }
        i := i + 1;
      }
      assert KeysOfRows(rows)[..i] == KeysOfRows(rows);
    }

    /** Makes a node the child at a place, unless it is. */
    method PutAt(i: nat, tr: Tr, ghost placed: seq<Tr>, ghost rest: seq<Tr>)
      requires children == placed + rest && i == |placed|
      modifies this
      ensures var stays := rest != [] && rest[0] == tr;
              var ref: Tr? := if rest == [] then null else rest[0];
              && children == (if stays then old(children) else InsertedBefore(old(children), tr, ref))
              && inserts == if stays then old(inserts) else old(inserts) + 1
    {
      var ref: Tr? := if i < |children| then children[i] else null;
      if ref != tr {
        InsertBefore(tr, ref);
      }
    }

    /** The node for a row: the one already on the table, patched, or a new one. */
    method TakeNode(o: Opp, byKey: map<Key, Tr>) returns (tr: Tr)
      requires KeyOf(o) in byKey ==> byKey[KeyOf(o)].rowKey == Some(KeyOf(o))
      modifies if KeyOf(o) in byKey then {byKey[KeyOf(o)]} else {}
      ensures if KeyOf(o) in byKey then tr == byKey[KeyOf(o)] else fresh(tr)
      ensures tr.rowKey == Some(KeyOf(o)) && tr.drawn == Some(o)
    {
      if KeyOf(o) in byKey {
        tr := byKey[KeyOf(o)];
        tr.Patch(o);
      } else {
        tr := new Tr.Keyed(o);
      }
    }

    /** Puts the page's nodes in order, front to back. */
    method Reposition(page: seq<Opp>, byKey: map<Key, Tr>, ghost survivors: seq<Tr>, ghost before: seq<Tr>)
      requires children == survivors && NoRepeats(survivors) && KeysDistinct(survivors)
      requires NoRepeats(PageKeys(page))
      requires Sourced(page, byKey, survivors, before)
      modifies this, before
      ensures NoRepeats(children) && |children| == |page|
      ensures forall i :: 0 <= i < |page| ==>
                children[i].rowKey == Some(KeyOf(page[i])) && children[i].drawn == Some(page[i])
      ensures forall i :: 0 <= i < |page| ==>
                if KeyOf(page[i]) in byKey then children[i] == byKey[KeyOf(page[i])] else fresh(children[i])
      ensures inserts >= old(inserts)
      ensures inserts == old(inserts) ==> children == survivors
      ensures InPageOrder(survivors, page) ==> inserts - old(inserts) == |page| - |survivors|
    {
      var i := 0;
      ghost var placed, rest := [], survivors;
      PassStarts(survivors, page);
      while i < |page|
        invariant 0 <= i == |placed| <= |page|
        invariant Midway(placed, rest, survivors, page, byKey, old(inserts))
        invariant forall j :: 0 <= j < i && KeyOf(page[j]) !in byKey ==> fresh(placed[j])
      {
        hide Midway, NoRepeats, KeysDistinct, Sourced;
        var tr := PlaceNext(i, page, byKey, placed, rest, survivors, before, old(inserts));
        placed, rest := placed + [tr], Without(rest, tr);
        i := i + 1;
      }
      PassEnds(placed, rest, survivors, page);
    }

    /** The table in the middle of the pass. */
    ghost predicate Midway(
      placed: seq<Tr>, rest: seq<Tr>, survivors: seq<Tr>, page: seq<Opp>, byKey: map<Key, Tr>, start: nat)
      requires |placed| <= |page|
      reads this, placed
    {
      && children == placed + rest
      && Passing(placed, rest, survivors, page)
      && Counted(placed, rest, survivors, page, inserts - start)
      && Drawn(placed, page) && Reused(placed, page, byKey)
    }

    /** One iteration of the pass. */
    method PlaceNext(i: nat, page: seq<Opp>, byKey: map<Key, Tr>, ghost placed: seq<Tr>, ghost rest: seq<Tr>,
                     ghost survivors: seq<Tr>, ghost before: seq<Tr>, ghost start: nat)
      returns (tr: Tr)
      requires i == |placed| < |page| && Midway(placed, rest, survivors, page, byKey, start)
      requires KeysDistinct(survivors) && NoRepeats(PageKeys(page))
      requires Sourced(page, byKey, survivors, before)
      modifies this, before
      ensures Midway(placed + [tr], Without(rest, tr), survivors, page, byKey, start)
      ensures KeyOf(page[i]) !in byKey ==> fresh(tr)
    {
      hide Passing, Counted, NoRepeats, KeysDistinct, InsertedBefore, Sourced, Reused;
      SourceOf(page, byKey, survivors, before, i);
      PlacedKeysDiffer(placed, rest, survivors, page);
      tr := TakeNode(page[i], byKey);
      assert Drawn(placed, page);
      ReuseStep(placed, page, byKey, tr);
      NextPlace(placed, rest, survivors, page, tr, inserts - start);
      PutAt(i, tr, placed, rest);
      assert Drawn(placed, page) && tr.drawn == Some(page[i]);
    }

    /** Draws one page of the filtered rows. */
    method RenderArb(filtered: seq<Opp>, pageIndex: nat, pageSize: nat)
      requires Valid() && NoRepeats(PageKeys(filtered))
      modifies this, children
      ensures Valid()
      ensures filtered == [] ==>
                |children| == 1 && fresh(children[0]) && children[0].rowKey == None && inserts == old(inserts)
      ensures filtered != [] ==>
                var page := PageOf(filtered, pageIndex * pageSize, pageSize);
                && KeysOfRows(children) == PageKeys(page)
                && (forall i :: 0 <= i < |page| ==> children[i].drawn == Some(page[i]))
                && (forall i :: 0 <= i < |page| ==>
                      if PageKeys(page)[i] in KeysOfRows(old(children)) then children[i] in old(children)
                      else fresh(children[i]))
      ensures filtered != [] ==>
                && |children| == PageLength(|filtered|, pageIndex * pageSize, pageSize)
                && forall i :: 0 <= i < |children| ==>
                     && pageIndex * pageSize + i < |filtered|
                     && children[i].drawn == Some(filtered[pageIndex * pageSize + i])
      ensures filtered != [] ==>
                var page := PageOf(filtered, pageIndex * pageSize, pageSize);
                var survivors := Survivors(old(children), set o | o in page :: KeyOf(o));
                && inserts >= old(inserts)
                && (inserts == old(inserts) <==> KeysOfRows(survivors) == PageKeys(page))
                && (InPageOrder(survivors, page) ==> inserts - old(inserts) == |page| - |survivors|)
    {
      if filtered == [] {
        ShowPlaceholder();
        return;
      }
      ghost var start := pageIndex * pageSize;
      var page := PageOf(filtered, pageIndex * pageSize, pageSize);
      PageKeysDistinct(filtered, start, pageSize);
      PageReads(filtered, start, pageSize);
      hide PageOf, PageLength, Survivors, InPageOrder, NoRepeats, KeysDistinct;
      DrawPage(page);
    }

    /** Brings the body into line with one page. */
    method DrawPage(page: seq<Opp>)
      requires Valid() && NoRepeats(PageKeys(page))
      modifies this, children
      ensures Valid()
      ensures KeysOfRows(children) == PageKeys(page) && |children| == |page|
      ensures forall i :: 0 <= i < |page| ==> children[i].drawn == Some(page[i])
      ensures forall i :: 0 <= i < |page| ==>
                if PageKeys(page)[i] in KeysOfRows(old(children)) then children[i] in old(children)
                else fresh(children[i])
      ensures var survivors := Survivors(old(children), set o | o in page :: KeyOf(o));
              && inserts >= old(inserts)
              && (inserts == old(inserts) <==> KeysOfRows(survivors) == PageKeys(page))
              && (InPageOrder(survivors, page) ==> inserts - old(inserts) == |page| - |survivors|)
    {
      var byKey := Prune(page);
      ghost var survivors := children;
      hide InPageOrder, Survivors, Sourced, KeysDistinct;
      Reposition(page, byKey, survivors, old(children));
      InsertsExact(survivors, children, page, inserts - old(inserts));
      PageRowsKeys(children, page);
    }

    /** Drops the placeholders and the rows the page does not list; indexes the keyed rows first. */
    method Prune(page: seq<Opp>) returns (byKey: map<Key, Tr>)
      requires Valid()
      modifies this`children
      ensures children == Survivors(old(children), set o | o in page :: KeyOf(o))
      ensures NoRepeats(children) && KeysDistinct(children) && Sourced(page, byKey, children, old(children))
      ensures forall i :: 0 <= i < |page| ==>
                if KeyOf(page[i]) in byKey
                then byKey[KeyOf(page[i])] in old(children) && PageKeys(page)[i] in KeysOfRows(old(children))
                else PageKeys(page)[i] !in KeysOfRows(old(children))
    {
      ghost var before := children;
      RemoveAll(Unkeyed(children));
      ExcludingNoRepeats(before, Unkeyed(before));
      ghost var keyed := children;
      forall j | 0 <= j < |keyed|
        ensures keyed[j] in before
      {
        ExcludingMember(before, Unkeyed(before), keyed[j]);
      }
      KeysDistinctPart(keyed, before);
      byKey := IndexRows(children);
      var wanted := set o | o in page :: KeyOf(o);
      RemoveAll(Unwanted(children, wanted));
      PruneIsSurvivors(before, wanted);
      SurvivorsReady(before, page);
      forall i | 0 <= i < |page|
        ensures var k := KeyOf(page[i]);
                && (k in byKey <==> Some(k) in KeysOfRows(before))
                && (if k in byKey then byKey[k] in before && byKey[k] in children && byKey[k].rowKey == Some(k)
                    else Some(k) !in KeysOfRows(children))
      {
        var k := KeyOf(page[i]);
        SurvivorOfKey(before, page, page[i]);
        KeyedRowsKeys(before, k);
        if k in byKey {
          ExcludingMember(before, Unkeyed(before), byKey[k]);
        }
      }
    }
  }

  lemma PageRowsKeys(rows: seq<Tr>, page: seq<Opp>)
    requires |rows| == |page| && forall i :: 0 <= i < |page| ==> rows[i].rowKey == Some(KeyOf(page[i]))
    requires NoRepeats(PageKeys(page))
    ensures KeysOfRows(rows) == PageKeys(page) && KeysDistinct(rows)
  {
    assert forall i :: 0 <= i < |page| ==> rows[i].rowKey == PageKeys(page)[i];
  }

  lemma PassStarts(survivors: seq<Tr>, page: seq<Opp>)
    requires NoRepeats(survivors)
    requires forall j :: 0 <= j < |survivors| ==> survivors[j].rowKey in PageKeys(page)
    ensures Passing([], survivors, survivors, page) && Counted([], survivors, survivors, page, 0)
  {
    assert PageKeys(page)[0..] == PageKeys(page);
    assert [] + survivors == survivors;
  }

  lemma PlacedKeysDiffer(placed: seq<Tr>, rest: seq<Tr>, survivors: seq<Tr>, page: seq<Opp>)
    requires |placed| < |page| && Passing(placed, rest, survivors, page) && NoRepeats(PageKeys(page))
    ensures forall j :: 0 <= j < |placed| ==> placed[j].rowKey != Some(KeyOf(page[|placed|]))
  {
    var keys := PageKeys(page);
    assert forall j :: 0 <= j < |placed| ==> placed[j].rowKey == keys[j] != keys[|placed|];
  }

  lemma PassEnds(placed: seq<Tr>, rest: seq<Tr>, survivors: seq<Tr>, page: seq<Opp>)
    requires |placed| == |page| && Passing(placed, rest, survivors, page)
    ensures rest == []
  {
    NoneWaits(rest, PageKeys(page)[|placed|..]);
  }

  lemma NoneWaits(rest: seq<Tr>, waiting: seq<Option<Key>>)
    requires forall j :: 0 <= j < |rest| ==> rest[j].rowKey in waiting
    ensures rest != [] ==> waiting != []
  {
    if rest != [] {
      assert rest[0].rowKey in waiting;
    }
  }

  /** The pruned table is ready for the pass. */
  lemma SurvivorsReady(before: seq<Tr>, page: seq<Opp>)
    requires NoRepeats(before) && KeysDistinct(before)
    ensures var survivors := Survivors(before, set o | o in page :: KeyOf(o));
            && NoRepeats(survivors) && KeysDistinct(survivors)
            && (forall j :: 0 <= j < |survivors| ==> survivors[j] in before && survivors[j].rowKey in PageKeys(page))
  {
    var wanted := set o | o in page :: KeyOf(o);
    var survivors := Survivors(before, wanted);
    SurvivorsNoRepeats(before, wanted);
    forall j | 0 <= j < |survivors|
      ensures survivors[j] in before && survivors[j].rowKey in PageKeys(page)
    {
      SurvivorsMember(before, wanted, survivors[j]);
      var o :| o in page && KeyOf(o) == survivors[j].rowKey.value;
      var m :| 0 <= m < |page| && page[m] == o;
      assert PageKeys(page)[m] == survivors[j].rowKey;
    }
    KeysDistinctPart(survivors, before);
  }

  /** A page key has a survivor exactly when the table had a row with that key. */
  lemma SurvivorOfKey(before: seq<Tr>, page: seq<Opp>, o: Opp)
    requires o in page
    ensures var survivors := Survivors(before, set p | p in page :: KeyOf(p));
            && (Some(KeyOf(o)) in KeysOfRows(survivors) <==> Some(KeyOf(o)) in KeysOfRows(before))
            && (forall i :: 0 <= i < |before| && before[i].rowKey == Some(KeyOf(o)) ==> before[i] in survivors)
  {
    var wanted := set p | p in page :: KeyOf(p);
    var survivors := Survivors(before, wanted);
    forall i | 0 <= i < |before| && before[i].rowKey == Some(KeyOf(o))
      ensures before[i] in survivors
    {
      SurvivorsMember(before, wanted, before[i]);
    }
    if Some(KeyOf(o)) in KeysOfRows(before) {
      var i :| 0 <= i < |before| && KeysOfRows(before)[i] == Some(KeyOf(o));
      KeyListed(survivors, before[i]);
    }
    if Some(KeyOf(o)) in KeysOfRows(survivors) {
      var j :| 0 <= j < |survivors| && KeysOfRows(survivors)[j] == Some(KeyOf(o));
      SurvivorsMember(before, wanted, survivors[j]);
      KeyListed(before, survivors[j]);
    }
  }

  /** Dropping placeholders drops no key. */
  lemma KeyedRowsKeys(before: seq<Tr>, k: Key)
    ensures Some(k) in KeysOfRows(Excluding(before, Unkeyed(before))) <==> Some(k) in KeysOfRows(before)
  {
    var keyed := Excluding(before, Unkeyed(before));
    if Some(k) in KeysOfRows(before) {
      var i :| 0 <= i < |before| && KeysOfRows(before)[i] == Some(k);
      UnkeyedMember(before, before[i]);
      ExcludingMember(before, Unkeyed(before), before[i]);
      KeyListed(keyed, before[i]);
    }
    if Some(k) in KeysOfRows(keyed) {
      var j :| 0 <= j < |keyed| && KeysOfRows(keyed)[j] == Some(k);
      ExcludingMember(before, Unkeyed(before), keyed[j]);
      KeyListed(before, keyed[j]);
    }
  }

  /** What a repositioned table shows, in terms of the table before the render. */
  lemma InsertsExact(survivors: seq<Tr>, children: seq<Tr>, page: seq<Opp>, inserted: int)
    requires |children| == |page| && forall i :: 0 <= i < |page| ==> children[i].rowKey == Some(KeyOf(page[i]))
    requires inserted == 0 ==> children == survivors
    requires InPageOrder(survivors, page) ==> inserted == |page| - |survivors|
    ensures inserted == 0 <==> KeysOfRows(survivors) == PageKeys(page)
  {
    assert KeysOfRows(children) == PageKeys(page);
    if KeysOfRows(survivors) == PageKeys(page) {
      KeptAll(PageKeys(page), survivors);
    }
  }
}
