/** Keyset-paged recovery scans: what following the cursor visits while the table changes underneath. */
module RecoveryScan {
  import opened Wrappers
  import opened AttachmentModel

  // ---------------------------------------------------------------------------
  // Attachment ids in binary order
  // ---------------------------------------------------------------------------

  predicate Less(a: AttachmentId, b: AttachmentId) {
    b != "" && (a == "" || a[0] < b[0] || (a[0] == b[0] && Less(a[1..], b[1..])))
  }

  lemma {:induction false} LessIsTotal(a: AttachmentId, b: AttachmentId)
    ensures Less(a, b) || a == b || Less(b, a)
    ensures !(Less(a, b) && Less(b, a)) && (a == b ==> !Less(a, b))
  {
    if a != "" && b != "" && a[0] == b[0] {
      LessIsTotal(a[1..], b[1..]);
      assert a == [a[0]] + a[1..] && b == [b[0]] + b[1..];
    }
  }

  lemma {:induction false} LessIsTransitive(a: AttachmentId, b: AttachmentId, c: AttachmentId)
    requires Less(a, b) && Less(b, c)
    ensures Less(a, c)
  {
    if a != "" && a[0] == b[0] == c[0] {
      LessIsTransitive(a[1..], b[1..], c[1..]);
    }
  }

  /** The order of the ids: by the first character in which they differ, a prefix before its extensions. */
  lemma {:induction false} LessIsBinary(a: AttachmentId, b: AttachmentId)
    ensures Less(a, b) <==>
              exists k :: 0 <= k <= |a| && k < |b| && a[..k] == b[..k] && (k == |a| || a[k] < b[k])
  {
    if a == "" || b == "" || a[0] != b[0] {
      if b != "" {
        assert a[..0] == b[..0];
      }
      forall k | 0 < k <= |a| && k < |b| ensures a[..k] != b[..k] {
        assert a[..k][0] == a[0] && b[..k][0] == b[0];
      }
    } else {
      LessIsBinary(a[1..], b[1..]);
      forall k | 0 < k <= |a| && k < |b| ensures a[..k] == b[..k] <==> a[1..][..k - 1] == b[1..][..k - 1] {
        assert a[..k] == [a[0]] + a[1..][..k - 1] && b[..k] == [b[0]] + b[1..][..k - 1];
      }
      if Less(a, b) {
        var k :| 0 <= k <= |a[1..]| && k < |b[1..]| && a[1..][..k] == b[1..][..k]
            && (k == |a[1..]| || a[1..][k] < b[1..][k]);
        assert a[..k + 1] == b[..k + 1];
      }
      if k :| 0 <= k <= |a| && k < |b| && a[..k] == b[..k] && (k == |a| || a[k] < b[k]) {
        assert a[1..][..k - 1] == b[1..][..k - 1];
      }
    }
  }

  ghost predicate Ascending(ids: seq<AttachmentId>) {
    forall i, j :: 0 <= i < j < |ids| ==> Less(ids[i], ids[j])
  }

  predicate Beyond(after: Option<AttachmentId>, id: AttachmentId) {
    after.None? || Less(after.value, id)
  }

  // ---------------------------------------------------------------------------
  // One page
  // ---------------------------------------------------------------------------

  type Rows = map<AttachmentId, Record>

  /** The ids a page may list: active, last updated within the cutoff, beyond the cursor. */
  function Eligible(rows: Rows, cutoff: int, after: Option<AttachmentId>): set<AttachmentId> {
    set id | id in rows && rows[id].state == Active && rows[id].updatedAtMs <= cutoff && Beyond(after, id)
  }

  /** The first `limit` eligible ids in ascending order. */
  ghost predicate IsPage(rows: Rows, cutoff: int, after: Option<AttachmentId>, limit: nat, page: seq<AttachmentId>) {
    && Ascending(page) && |page| <= limit
    && (forall i :: 0 <= i < |page| ==> page[i] in Eligible(rows, cutoff, after))
    && (forall id :: id in Eligible(rows, cutoff, after) && id !in page ==> |page| == limit && Precede(page, id))
  }

  ghost predicate Precede(page: seq<AttachmentId>, id: AttachmentId) {
    forall i :: 0 <= i < |page| ==> Less(page[i], id)
  }

  /** The cursor a page hands out: its last id when the page is full. */
  function Cursor(page: seq<AttachmentId>, limit: nat): Option<AttachmentId> {
    if |page| == limit && page != [] then Some(page[|page| - 1]) else None
  }

  /** Beyond a full page's cursor lies exactly what was eligible and not on the page. */
  lemma RestAfterPage(rows: Rows, cutoff: int, after: Option<AttachmentId>, limit: nat, page: seq<AttachmentId>)
    requires IsPage(rows, cutoff, after, limit, page) && Cursor(page, limit).Some?
    ensures Eligible(rows, cutoff, Cursor(page, limit)) == Eligible(rows, cutoff, after) - Elements(page)
    ensures Elements(page) <= Eligible(rows, cutoff, after)
    ensures Eligible(rows, cutoff, Cursor(page, limit)) < Eligible(rows, cutoff, after)
  {
    var last := page[|page| - 1];
    forall id | id in Eligible(rows, cutoff, Some(last))
      ensures id in Eligible(rows, cutoff, after) && id !in page
    {
      if after.Some? { LessIsTransitive(after.value, last, id); }
      if id in page {
        var i :| 0 <= i < |page| && page[i] == id;
        LessIsTotal(page[i], last);
      }
    }
    assert last in Eligible(rows, cutoff, after);
  }

  ghost predicate AtOrBefore(cursor: Option<AttachmentId>, ids: seq<AttachmentId>) {
    ids != [] ==> cursor.Some? && forall i :: 0 <= i < |ids| ==> ids[i] == cursor.value || Less(ids[i], cursor.value)
  }

  /** A page read beyond the cursor continues what was visited up to it. */
  lemma PageExtends(visited: seq<AttachmentId>, after: Option<AttachmentId>, page: seq<AttachmentId>)
    requires Ascending(visited) && Ascending(page) && AtOrBefore(after, visited)
    requires forall i :: 0 <= i < |page| ==> Beyond(after, page[i])
    ensures Ascending(visited + page)
    ensures page != [] ==> AtOrBefore(Some(page[|page| - 1]), visited + page)
  {
    forall i, j | 0 <= i < |visited| && 0 <= j < |page| ensures Less(visited[i], page[j]) {
      if visited[i] != after.value { LessIsTransitive(visited[i], after.value, page[j]); }
    }
  }

  // ---------------------------------------------------------------------------
  // A whole scan over changing tables
  // ---------------------------------------------------------------------------

  /** `pages[i]` was read from `tables[i]`; the scan follows each cursor until a page hands out none. */
  ghost predicate Scanned(tables: seq<Rows>, cutoff: int, limit: nat, after: Option<AttachmentId>,
      pages: seq<seq<AttachmentId>>)
    decreases |pages|
  {
    && |tables| == |pages| > 0
    && IsPage(tables[0], cutoff, after, limit, pages[0])
    && match Cursor(pages[0], limit)
       case None => |pages| == 1
       case Some(_) => Scanned(tables[1..], cutoff, limit, Cursor(pages[0], limit), pages[1..])
  }

  ghost function Visited(pages: seq<seq<AttachmentId>>): seq<AttachmentId> {
    if pages == [] then [] else pages[0] + Visited(pages[1..])
  }

  /** The scan visits ids in strictly ascending order, so none twice, whatever happens between pages. */
  lemma {:induction false} ScanAscends(tables: seq<Rows>, cutoff: int, limit: nat, after: Option<AttachmentId>,
      pages: seq<seq<AttachmentId>>)
    requires Scanned(tables, cutoff, limit, after, pages)
    ensures Ascending(Visited(pages))
    ensures forall i :: 0 <= i < |Visited(pages)| ==> Beyond(after, Visited(pages)[i])
    decreases |pages|
  {
    var page, cursor := pages[0], Cursor(pages[0], limit);
    if cursor.None? {
      assert Visited(pages[1..]) == [];
    } else {
      var rest := Visited(pages[1..]);
      ScanAscends(tables[1..], cutoff, limit, cursor, pages[1..]);
      forall i, j | 0 <= i < |page| && 0 <= j < |rest| ensures Less(page[i], rest[j]) {
        if i < |page| - 1 { LessIsTransitive(page[i], page[|page| - 1], rest[j]); }
      }
      forall j | 0 <= j < |rest| ensures Beyond(after, rest[j]) {
        if after.Some? { LessIsTransitive(after.value, page[|page| - 1], rest[j]); }
      }
    }
  }

  /** An attachment that is eligible every time a page is read is visited, whatever else changes. */
  lemma {:induction false} ScanMissesNothing(tables: seq<Rows>, cutoff: int, limit: nat, after: Option<AttachmentId>,
      pages: seq<seq<AttachmentId>>, id: AttachmentId)
    requires Scanned(tables, cutoff, limit, after, pages)
    requires Beyond(after, id)
    requires forall i :: 0 <= i < |tables| ==> id in Eligible(tables[i], cutoff, None)
    ensures limit > 0 ==> id in Visited(pages)
    decreases |pages|
  {
    assert id in Eligible(tables[0], cutoff, after);
    if id !in pages[0] && limit > 0 {
      assert Precede(pages[0], id);
      ScanMissesNothing(tables[1..], cutoff, limit, Cursor(pages[0], limit), pages[1..], id);
    }
  }

  /** Between one page and the next, only attachments at or before the cursor changed. */
  ghost predicate OnlyVisitedChange(tables: seq<Rows>, limit: nat, pages: seq<seq<AttachmentId>>)
    requires |tables| == |pages|
  {
    |tables| > 1 ==>
      && SameBeyond(tables[0], tables[1], Cursor(pages[0], limit))
      && OnlyVisitedChange(tables[1..], limit, pages[1..])
  }

  ghost predicate SameBeyond(a: Rows, b: Rows, cursor: Option<AttachmentId>) {
    forall id :: Beyond(cursor, id) ==> (id in a <==> id in b) && (id in a ==> a[id] == b[id])
  }

  lemma SameEligible(a: Rows, b: Rows, cutoff: int, cursor: Option<AttachmentId>)
    requires SameBeyond(a, b, cursor)
    ensures Eligible(a, cutoff, cursor) == Eligible(b, cutoff, cursor)
  {
  }

  function Elements(ids: seq<AttachmentId>): set<AttachmentId> {
    set id | id in ids
  }

  lemma LastPage(rows: Rows, cutoff: int, after: Option<AttachmentId>, limit: nat, page: seq<AttachmentId>)
    requires IsPage(rows, cutoff, after, limit, page) && Cursor(page, limit).None? && limit > 0
    ensures Elements(page) == Eligible(rows, cutoff, after)
  {
  }

  /** If only visited attachments change during the scan, it visits exactly the initially eligible ones, and stops. */
  lemma {:induction false} ScanIsExact(tables: seq<Rows>, cutoff: int, limit: nat, after: Option<AttachmentId>,
      pages: seq<seq<AttachmentId>>)
    requires Scanned(tables, cutoff, limit, after, pages) && limit > 0
    requires OnlyVisitedChange(tables, limit, pages)
    ensures Elements(Visited(pages)) == Eligible(tables[0], cutoff, after)
    ensures |pages| <= |Eligible(tables[0], cutoff, after)| + 1
    decreases |pages|
  {
    var page, cursor := pages[0], Cursor(pages[0], limit);
    assert Elements(Visited(pages)) == Elements(page) + Elements(Visited(pages[1..]));
    if cursor.None? {
      LastPage(tables[0], cutoff, after, limit, page);
    } else {
      RestAfterPage(tables[0], cutoff, after, limit, page);
      SameEligible(tables[0], tables[1], cutoff, cursor);
      ScanIsExact(tables[1..], cutoff, limit, cursor, pages[1..]);
      SmallerSet(Eligible(tables[0], cutoff, cursor), Eligible(tables[0], cutoff, after));
    }
  }

  lemma SmallerSet<T>(a: set<T>, b: set<T>)
    requires a < b
    ensures |a| < |b|
  {
    assert b == a + (b - a);
    assert b - a != {};
  }
}
