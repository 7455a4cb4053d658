/**
 * The change-detection engine: from one fetched page (newest record first) and the
 * stored marker of one wallet and transaction class, decide which records are new,
 * in which order they are announced, and what the marker becomes.
 */
module Detection {
  import opened Wrappers
  import opened Explorer

  /** The only start-up mode that announces a cold start; every other mode is silent. */
  const NotifyMode := "notify"

  /** A record counts for detection when its hash is present and not the empty string. */
  predicate HasHash(t: Tx)
  {
    t.hash.Some? && t.hash.value != ""
  }

  /** The hashes of the page, newest first, with hash-less records filtered out. */
  function Hashes(page: seq<Tx>): (hs: seq<string>)
    ensures |hs| <= |page|
    ensures forall k :: 0 <= k < |hs| ==> hs[k] != ""
  {
    if page == [] then []
    else if HasHash(page[0]) then [page[0].hash.value] + Hashes(page[1..])
    else Hashes(page[1..])
  }

  /** Python's `list.index`: the first position at which `m` occurs in `hs`. */
  function IndexOf(hs: seq<string>, m: string): (i: nat)
    requires m in hs
    ensures i < |hs| && hs[i] == m
    ensures forall j :: 0 <= j < i ==> hs[j] != m
  {
    if hs[0] == m then 0 else 1 + IndexOf(hs[1..], m)
  }

  /** The records in the opposite order (Python's `reversed`). */
  function Reverse<T>(s: seq<T>): (r: seq<T>)
    ensures |r| == |s|
    ensures forall k :: 0 <= k < |s| ==> r[k] == s[|s| - 1 - k]
  {
    if s == [] then [] else Reverse(s[1..]) + [s[0]]
  }

  /** A missing marker and an empty one both mean that nothing was observed yet. */
  predicate IsCold(last: Option<string>)
  {
    last.None? || last.value == ""
  }

  /**
   * The records taken as new, newest first. The position of the marker is looked up
   * among the filtered hashes but is used to cut the unfiltered page, as the bot does.
   */
  function NewItems(page: seq<Tx>, last: Option<string>, mode: string): (items: seq<Tx>)
  {
    var hs := Hashes(page);
    if IsCold(last) then (if mode == NotifyMode then page else [])
    else if last.value in hs then page[..IndexOf(hs, last.value)]
    else page
  }

  /** What one run decides: the records to announce, oldest first, and the new marker, if any. */
  datatype Verdict = Verdict(emitted: seq<Tx>, advance: Option<string>)

  function Detect(page: seq<Tx>, last: Option<string>, mode: string): (v: Verdict)
  {
    var hs := Hashes(page);
    if hs == [] then Verdict([], None)
    else Verdict(Reverse(NewItems(page, last, mode)), Some(hs[0]))
  }

  /** The marker stored after a verdict: the advanced one, or the old one when there is none. */
  function Advance(last: Option<string>, v: Verdict): (next: Option<string>)
  {
    if v.advance.Some? then v.advance else last
  }

  /** The filtered hash list is empty exactly when no record of the page has a non-empty hash. */
  lemma {:induction false} HashesEmptyIff(page: seq<Tx>)
    ensures Hashes(page) == [] <==> forall i :: 0 <= i < |page| ==> !HasHash(page[i])
  {
    if page != [] {
      HashesEmptyIff(page[1..]);
      assert forall i :: 1 <= i < |page| ==> page[i] == page[1..][i - 1];
    }
  }

  /** The head of the filtered hash list is the hash of the first record that has one. */
  lemma {:induction false} HashesHead(page: seq<Tx>, j: nat)
    requires j < |page| && HasHash(page[j])
    requires forall i :: 0 <= i < j ==> !HasHash(page[i])
    ensures Hashes(page) != [] && Hashes(page)[0] == page[j].hash.value
  {
    if j > 0 {
      assert !HasHash(page[0]);
      HashesHead(page[1..], j - 1);
    }
  }

  /**
   * Where the k-th filtered hash sits in the raw page: never before position k, in a
   * record that has that hash.
   */
  function HashPos(page: seq<Tx>, k: nat): (p: nat)
    requires k < |Hashes(page)|
    ensures k <= p < |page| && HasHash(page[p]) && page[p].hash.value == Hashes(page)[k]
  {
    if HasHash(page[0]) then (if k == 0 then 0 else 1 + HashPos(page[1..], k - 1))
    else 1 + HashPos(page[1..], k)
  }

  /**
   * Every record with a non-empty hash contributes it: the record at raw position i
   * is the k-th filtered hash for some k.
   */
  lemma {:induction false} HashPosOnto(page: seq<Tx>, i: nat) returns (k: nat)
    requires i < |page| && HasHash(page[i])
    ensures k < |Hashes(page)| && HashPos(page, k) == i
  {
    if i == 0 {
      k := 0;
    } else {
      assert page[1..][i - 1] == page[i];
      var k' := HashPosOnto(page[1..], i - 1);
      k := if HasHash(page[0]) then k' + 1 else k';
    }
  }

  /** The filtered hashes keep the order of the page: later filtered positions come from later records. */
  lemma {:induction false} HashPosIncreasing(page: seq<Tx>, k1: nat, k2: nat)
    requires k1 < k2 < |Hashes(page)|
    ensures HashPos(page, k1) < HashPos(page, k2)
  {
    if HasHash(page[0]) {
      if k1 > 0 {
        HashPosIncreasing(page[1..], k1 - 1, k2 - 1);
      }
    } else {
      HashPosIncreasing(page[1..], k1, k2);
    }
  }

  /** A hash is in the filtered list exactly when some record of the page carries it, non-empty. */
  lemma HashesMember(page: seq<Tx>, h: string)
    ensures h in Hashes(page) <==> exists i :: 0 <= i < |page| && HasHash(page[i]) && page[i].hash.value == h
  {
    if h in Hashes(page) {
      var k :| 0 <= k < |Hashes(page)| && Hashes(page)[k] == h;
      var i := HashPos(page, k);
      assert HasHash(page[i]) && page[i].hash.value == h;
    }
    if exists i :: 0 <= i < |page| && HasHash(page[i]) && page[i].hash.value == h {
      var i :| 0 <= i < |page| && HasHash(page[i]) && page[i].hash.value == h;
      var k := HashPosOnto(page, i);
      assert Hashes(page)[k] == h;
    }
  }

  /**
   * A page without any non-empty hash announces nothing and leaves the marker alone,
   * however many records it holds.
   */
  lemma NothingWithoutHashes(page: seq<Tx>, last: Option<string>, mode: string)
    requires forall i :: 0 <= i < |page| ==> !HasHash(page[i])
    ensures Detect(page, last, mode) == Verdict([], None)
    ensures Advance(last, Detect(page, last, mode)) == last
  {
    HashesEmptyIff(page);
  }

  /**
   * Cold start: in mode "notify" the whole page is announced oldest first, in any
   * other mode nothing is; either way the marker becomes the first non-empty hash.
   */
  lemma ColdStart(page: seq<Tx>, last: Option<string>, mode: string, j: nat)
    requires IsCold(last)
    requires j < |page| && HasHash(page[j])
    requires forall i :: 0 <= i < j ==> !HasHash(page[i])
    ensures mode == NotifyMode ==> Detect(page, last, mode).emitted == Reverse(page)
    ensures mode != NotifyMode ==> Detect(page, last, mode).emitted == []
    ensures Detect(page, last, mode).advance == Some(page[j].hash.value)
  {
    HashesHead(page, j);
  }

  /**
   * Marker found at first filtered position i: the first i raw records are announced,
   * oldest first (none when i is 0), and the marker becomes the newest hash.
   */
  lemma MarkerFound(page: seq<Tx>, last: Option<string>, mode: string, i: nat)
    requires !IsCold(last)
    requires i < |Hashes(page)| && Hashes(page)[i] == last.value
    requires forall j :: 0 <= j < i ==> Hashes(page)[j] != last.value
    ensures |Detect(page, last, mode).emitted| == i
    ensures forall k :: 0 <= k < i ==> Detect(page, last, mode).emitted[k] == page[i - 1 - k]
    ensures Detect(page, last, mode).advance == Some(Hashes(page)[0])
  {
    var hs := Hashes(page);
    var x := IndexOf(hs, last.value);
    assert !(x < i) && !(i < x);
    assert NewItems(page, last, mode) == page[..i];
  }

  /**
   * Marker scrolled off the page: every record is announced, oldest first, and the
   * marker becomes the newest hash.
   */
  lemma MarkerLost(page: seq<Tx>, last: Option<string>, mode: string)
    requires !IsCold(last) && Hashes(page) != []
    requires forall k :: 0 <= k < |Hashes(page)| ==> Hashes(page)[k] != last.value
    ensures Detect(page, last, mode).emitted == Reverse(page)
    ensures Detect(page, last, mode).advance == Some(Hashes(page)[0])
  {
    assert last.value !in Hashes(page);
  }

  /**
   * The same case stated on the raw page: when no record carries the stored marker and
   * some record has a non-empty hash, the whole page is announced, oldest first, and the
   * marker becomes the first non-empty hash.
   */
  lemma MarkerNotOnPage(page: seq<Tx>, last: Option<string>, mode: string, j: nat)
    requires !IsCold(last)
    requires forall i :: 0 <= i < |page| ==> page[i].hash != last
    requires j < |page| && HasHash(page[j])
    requires forall i :: 0 <= i < j ==> !HasHash(page[i])
    ensures Detect(page, last, mode).emitted == Reverse(page)
    ensures Detect(page, last, mode).advance == Some(page[j].hash.value)
  {
    HashesHead(page, j);
    HashesMember(page, last.value);
    assert last.value !in Hashes(page);
  }

  /**
   * Whatever the marker and the mode, the announced records are the newest records of
   * the page, oldest first; and the marker advances exactly when some record has a
   * non-empty hash, to the newest such hash.
   */
  lemma EmittedIsReversedPrefix(page: seq<Tx>, last: Option<string>, mode: string)
    ensures |Detect(page, last, mode).emitted| <= |page|
    ensures Detect(page, last, mode).emitted == Reverse(page[..|Detect(page, last, mode).emitted|])
    ensures Detect(page, last, mode).advance.Some? <==> exists i :: 0 <= i < |page| && HasHash(page[i])
    ensures Detect(page, last, mode).advance.Some? ==>
      Detect(page, last, mode).advance == Some(Hashes(page)[0]) && Hashes(page)[0] != ""
  {
    HashesEmptyIff(page);
    assert page[..|page|] == page;
  }

  /**
   * When the marker is found, no record at or behind the marker's own record is
   * announced again: the cut made with the filtered index never reaches it.
   */
  lemma MarkerNotReannounced(page: seq<Tx>, last: Option<string>, mode: string, i: nat)
    requires !IsCold(last)
    requires i < |Hashes(page)| && Hashes(page)[i] == last.value
    requires forall j :: 0 <= j < i ==> Hashes(page)[j] != last.value
    ensures |Detect(page, last, mode).emitted| <= HashPos(page, i)
  {
    MarkerFound(page, last, mode, i);
  }

  /**
   * Running the engine again on the same page with the marker it just stored announces
   * nothing and stores the same marker.
   */
  lemma Idempotent(page: seq<Tx>, last: Option<string>, mode: string)
    ensures var next := Advance(last, Detect(page, last, mode));
      && Detect(page, next, mode).emitted == []
      && Advance(next, Detect(page, next, mode)) == next
  {
    var hs := Hashes(page);
    if hs != [] {
      var next := Some(hs[0]);
      assert Advance(last, Detect(page, last, mode)) == next;
      assert IndexOf(hs, hs[0]) == 0;
      assert NewItems(page, next, mode) == [];
    }
  }

  /**
   * The filtered index applied to the unfiltered page, as written: a hash-less record
   * ahead of a newer hashed one shifts the cut, so the newer record is never announced
   * while the marker moves past it.
   */
  lemma HashlessRecordHidesNewer()
    ensures var page := [Tx(None, map[]), Tx(Some("0xC"), map[]), Tx(Some("0xA"), map[])];
      Detect(page, Some("0xA"), "silent") == Verdict([Tx(None, map[])], Some("0xC"))
  {
    var page := [Tx(None, map[]), Tx(Some("0xC"), map[]), Tx(Some("0xA"), map[])];
    assert Hashes(page[2..]) == ["0xA"];
    assert Hashes(page[1..]) == ["0xC", "0xA"];
    assert Hashes(page) == ["0xC", "0xA"];
    assert IndexOf(["0xC", "0xA"], "0xA") == 1;
  }

  /** Marker "0xAAA" under hashes 0xCCC, 0xBBB, 0xAAA: 0xBBB then 0xCCC are announced. */
  lemma ScenarioMarkerFound()
    ensures var page := [Tx(Some("0xCCC"), map[]), Tx(Some("0xBBB"), map[]), Tx(Some("0xAAA"), map[])];
      Detect(page, Some("0xAAA"), "silent") == Verdict([page[1], page[0]], Some("0xCCC"))
  {
    var page := [Tx(Some("0xCCC"), map[]), Tx(Some("0xBBB"), map[]), Tx(Some("0xAAA"), map[])];
    assert Hashes(page[2..]) == ["0xAAA"];
    assert Hashes(page[1..]) == ["0xBBB", "0xAAA"];
    assert Hashes(page) == ["0xCCC", "0xBBB", "0xAAA"];
    MarkerFound(page, Some("0xAAA"), "silent", 2);
  }
}
