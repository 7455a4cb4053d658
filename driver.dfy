/**
 * The per-wallet processing and the run driver: the in-memory store of markers, the
 * two transaction classes processed in turn for each wallet, and one pass over the
 * configured wallets that swallows per-wallet failures and saves the store at the end.
 */
module Driver {
  import opened Wrappers
  import opened Text
  import opened Explorer
  import opened Detection

  datatype TxClass = Native | Token

  /** The key under which a wallet's entry keeps the marker of a class. */
  function MarkerKey(c: TxClass): (key: string)
  {
    match c
    case Native => "normal"
    case Token => "token"
  }

  /** One wallet's entry: marker keys to hashes (other keys a loaded file may hold are kept). */
  type Entry = map<string, string>

  /** The `wallets` part of the state: lower-cased address to entry. */
  type Book = map<string, Entry>

  /** The explorer as seen during one run: the reply to a request for an address and a class. */
  type Remote = (string, TxClass) -> Reply

  /** One notification handed to the chat sink: the wallet, the class and the raw record. */
  datatype Event = Event(wallet: string, cls: TxClass, tx: Tx)

  /** `entry.get(key)`. */
  function Lookup(e: Entry, key: string): (v: Option<string>)
  {
    if key in e then Some(e[key]) else None
  }

  /** The entry after a verdict for the class stored under `key`. */
  function Mark(e: Entry, key: string, v: Verdict): (e': Entry)
  {
    if v.advance.Some? then e[key := v.advance.value] else e
  }

  function ClassVerdict(e: Entry, cls: TxClass, page: seq<Tx>, mode: string): (v: Verdict)
  {
    Detect(page, Lookup(e, MarkerKey(cls)), mode)
  }

  function ClassUpdate(e: Entry, cls: TxClass, page: seq<Tx>, mode: string): (e': Entry)
  {
    Mark(e, MarkerKey(cls), ClassVerdict(e, cls, page, mode))
  }

  function Announcements(wallet: string, cls: TxClass, txs: seq<Tx>): (evs: seq<Event>)
    ensures |evs| == |txs|
    ensures forall k :: 0 <= k < |txs| ==> evs[k] == Event(wallet, cls, txs[k])
  {
    if txs == [] then [] else [Event(wallet, cls, txs[0])] + Announcements(wallet, cls, txs[1..])
  }

  function ClassEvents(a: string, e: Entry, cls: TxClass, page: seq<Tx>, mode: string): (evs: seq<Event>)
  {
    Announcements(a, cls, ClassVerdict(e, cls, page, mode).emitted)
  }

  /** What processing one wallet leaves behind: the store, the notifications sent, and whether it finished. */
  datatype Step = Step(book: Book, events: seq<Event>, ok: bool)

  /** The entry of `a` as `setdefault(a, {})` finds or creates it. */
  function EntryOf(book: Book, a: string): (e: Entry)
  {
    if a in book then book[a] else map[]
  }

  /**
   * One class of a wallet whose entry exists, after the notifications `sent` so far:
   * a failed fetch raises and leaves everything as it is; a page is announced and
   * moves the class's marker.
   */
  function ClassStep(book: Book, a: string, cls: TxClass, fetched: Result<seq<Tx>, FetchError>,
                     sent: seq<Event>, mode: string): (s: Step)
    requires a in book
    ensures s.book.Keys == book.Keys
    ensures forall w :: w in book && w != a ==> s.book[w] == book[w]
  {
    match fetched
    case Failure(_) => Step(book, sent, false)
    case Success(page) =>
      Step(book[a := ClassUpdate(book[a], cls, page, mode)], sent + ClassEvents(a, book[a], cls, page, mode), true)
  }

  /**
   * One wallet: create its entry, then the native class and the token class in turn.
   * A failed fetch stops the wallet there, keeping what was already written and sent.
   */
  function WalletStep(book: Book, addr: string, remote: Remote, mode: string): (s: Step)
  {
    var a := Lower(addr);
    var native := ClassStep(book[a := EntryOf(book, a)], a, Native, Fetch(remote(a, Native)), [], mode);
    if !native.ok then native
    else ClassStep(native.book, a, Token, Fetch(remote(a, Token)), native.events, mode)
  }

  /** The wallets in order against one shared store; a wallet's failure is logged and dropped. */
  function RunWallets(book: Book, ws: seq<string>, remote: Remote, mode: string): (r: (Book, seq<Event>))
    decreases |ws|
  {
    if ws == [] then (book, [])
    else
      var before := RunWallets(book, ws[..|ws| - 1], remote, mode);
      var s := WalletStep(before.0, ws[|ws| - 1], remote, mode);
      (s.book, before.1 + s.events)
  }

  /**
   * The environment as the bot reads it: the values `os.getenv` returns, with "" for
   * a missing key and "silent" for a missing start-up mode.
   */
  datatype Config = Config(etherscanKey: string, telegramToken: string, chatId: string,
                           walletsRaw: string, initMode: string)

  /** How a pass ends: one of the three early exits, or a saved store and the notifications sent. */
  datatype RunOutcome = MissingApiKey | MissingTelegram | NoWallets | Saved(book: Book, events: seq<Event>)

  /** One pass; `loaded` is what loading the state file gives. */
  function Pass(cfg: Config, loaded: Book, remote: Remote): (r: RunOutcome)
  {
    if Strip(cfg.etherscanKey) == "" then MissingApiKey
    else if Strip(cfg.telegramToken) == "" || Strip(cfg.chatId) == "" then MissingTelegram
    else
      var ws := ParseWallets(cfg.walletsRaw);
      if ws == [] then NoWallets
      else
        var run := RunWallets(loaded, ws, remote, Lower(cfg.initMode));
        Saved(run.0, run.1)
  }

  /** Sends the records oldest first: one notification per record, from the last to the first. */
  method Announce(wallet: string, cls: TxClass, items: seq<Tx>) returns (events: seq<Event>)
    ensures |events| == |items|
    ensures forall k :: 0 <= k < |items| ==> events[k] == Event(wallet, cls, items[|items| - 1 - k])
  {
    events := [];
    var i := |items|;
    while i > 0
      invariant 0 <= i <= |items|
      invariant |events| == |items| - i
      invariant forall k :: 0 <= k < |events| ==> events[k] == Event(wallet, cls, items[|items| - 1 - k])
    {
      i := i - 1;
      events := events + [Event(wallet, cls, items[i])];
    }
  }

  /** The in-memory state of a run, updated in place wallet by wallet. */
  class Store {
    var book: Book

    constructor (loaded: Book)
      ensures book == loaded
    {
      book := loaded;
    }

    /** One class of one wallet whose entry exists: announce the new records, then move the marker. */
    method ProcessClass(a: string, cls: TxClass, page: seq<Tx>, mode: string) returns (events: seq<Event>)
      requires a in book
      modifies this
      ensures book == old(book)[a := ClassUpdate(old(book)[a], cls, page, mode)]
      ensures events == ClassEvents(a, old(book)[a], cls, page, mode)
    {
      var entry := book[a];
      var key := MarkerKey(cls);
      var hashes := Hashes(page);
      events := [];
      if hashes != [] {
        var items := NewItems(page, Lookup(entry, key), mode);
        events := Announce(a, cls, items);
        book := book[a := entry[key := hashes[0]]];
        assert events == Announcements(a, cls, Reverse(items));
      }
    }

    /** One wallet; `ok` is false when a fetch failed and the rest of the wallet was skipped. */
    method ProcessWallet(addr: string, remote: Remote, mode: string) returns (events: seq<Event>, ok: bool)
      modifies this
      ensures Step(book, events, ok) == WalletStep(old(book), addr, remote, mode)
    {
      var a := Lower(addr);
      book := book[a := EntryOf(book, a)];
      ghost var b0 := book;
      var normals := Fetch(remote(a, Native));
      if normals.Failure? {
        return [], false;
      }
      events := ProcessClass(a, Native, normals.value, mode);
      ghost var native := ClassStep(b0, a, Native, normals, [], mode);
      assert native == Step(book, events, true);
      var tokens := Fetch(remote(a, Token));
      if tokens.Failure? {
        return events, false;
      }
      var tokenEvents := ProcessClass(a, Token, tokens.value, mode);
      events := events + tokenEvents;
      ok := true;
    }
  }

  /** The wallet loop: each wallet in turn against the one store, failures skipped. */
  method ProcessAll(loaded: Book, ws: seq<string>, remote: Remote, mode: string) returns (book: Book, events: seq<Event>)
    ensures (book, events) == RunWallets(loaded, ws, remote, mode)
  {
    var store := new Store(loaded);
    events := [];
    var i := 0;
    while i < |ws|
      invariant 0 <= i <= |ws|
      invariant (store.book, events) == RunWallets(loaded, ws[..i], remote, mode)
    {
      var sent, ok := store.ProcessWallet(ws[i], remote, mode);
      assert ws[..i + 1][..i] == ws[..i];
      events := events + sent;
      i := i + 1;
    }
    assert ws[..i] == ws;
    book := store.book;
  }

  /** One scheduled invocation of the bot. */
  method RunPass(cfg: Config, loaded: Book, remote: Remote) returns (r: RunOutcome)
    ensures r == Pass(cfg, loaded, remote)
  {
    if Strip(cfg.etherscanKey) == "" {
      return MissingApiKey;
    }
    if Strip(cfg.telegramToken) == "" || Strip(cfg.chatId) == "" {
      return MissingTelegram;
    }
    var ws := ParseWallets(cfg.walletsRaw);
    if ws == [] {
      return NoWallets;
    }
    var book, events := ProcessAll(loaded, ws, remote, Lower(cfg.initMode));
    r := Saved(book, events);
  }

  /**
   * A class writes only its own marker key: every other key of the entry is as it was,
   * and its own key holds the advanced marker, or what it held before.
   */
  lemma ClassWritesOnlyItsKey(e: Entry, cls: TxClass, page: seq<Tx>, mode: string)
    ensures forall k :: k != MarkerKey(cls) ==> Lookup(ClassUpdate(e, cls, page, mode), k) == Lookup(e, k)
    ensures Lookup(ClassUpdate(e, cls, page, mode), MarkerKey(cls))
         == Advance(Lookup(e, MarkerKey(cls)), ClassVerdict(e, cls, page, mode))
  {
  }

  /** The entry already holds, for the class, the marker that `page` would store. */
  ghost predicate Seen(e: Entry, cls: TxClass, page: seq<Tx>)
  {
    Hashes(page) != [] ==> Lookup(e, MarkerKey(cls)) == Some(Hashes(page)[0])
  }

  /** After a class is processed, its page counts as seen. */
  lemma UpdateMakesSeen(e: Entry, cls: TxClass, page: seq<Tx>, mode: string)
    ensures Seen(ClassUpdate(e, cls, page, mode), cls, page)
  {
    ClassWritesOnlyItsKey(e, cls, page, mode);
  }

  /** Processing one class does not disturb what the other class has seen. */
  lemma UpdateKeepsOtherSeen(e: Entry, cls: TxClass, page: seq<Tx>, other: TxClass, seen: seq<Tx>, mode: string)
    requires cls != other && Seen(e, other, seen)
    ensures Seen(ClassUpdate(e, cls, page, mode), other, seen)
  {
    ClassWritesOnlyItsKey(e, cls, page, mode);
  }

  /** A page already seen announces nothing and writes nothing new. */
  lemma SeenIsStable(e: Entry, cls: TxClass, page: seq<Tx>, mode: string)
    requires Seen(e, cls, page)
    ensures ClassVerdict(e, cls, page, mode).emitted == []
    ensures ClassUpdate(e, cls, page, mode) == e
  {
    var hs := Hashes(page);
    if hs != [] {
      var key := MarkerKey(cls);
      assert Lookup(e, key) == Some(hs[0]);
      assert IndexOf(hs, hs[0]) == 0;
      assert NewItems(page, Lookup(e, key), mode) == [];
      assert e[key := hs[0]] == e;
    }
  }

  /** One class processed twice on the same page: the second time announces nothing and writes nothing new. */
  lemma ClassIdempotent(e: Entry, cls: TxClass, page: seq<Tx>, mode: string)
    ensures ClassVerdict(ClassUpdate(e, cls, page, mode), cls, page, mode).emitted == []
    ensures ClassUpdate(ClassUpdate(e, cls, page, mode), cls, page, mode) == ClassUpdate(e, cls, page, mode)
  {
    UpdateMakesSeen(e, cls, page, mode);
    SeenIsStable(ClassUpdate(e, cls, page, mode), cls, page, mode);
  }

  lemma ClassStepStable(book: Book, a: string, cls: TxClass, fetched: Result<seq<Tx>, FetchError>,
                        sent: seq<Event>, mode: string)
    requires a in book
    requires fetched.Success? ==> Seen(book[a], cls, fetched.value)
    ensures ClassStep(book, a, cls, fetched, sent, mode) == Step(book, sent, fetched.Success?)
  {
    if fetched.Success? {
      SeenIsStable(book[a], cls, fetched.value, mode);
      assert book[a := book[a]] == book;
      assert sent + Announcements(a, cls, []) == sent;
    }
  }

  /**
   * Processing a wallet leaves every other wallet's entry as it was and leaves the
   * wallet's entry in place, keyed by the lower-cased address, whatever the fetches gave.
   */
  lemma StepFrame(book: Book, addr: string, remote: Remote, mode: string)
    ensures WalletStep(book, addr, remote, mode).book.Keys == book.Keys + {Lower(addr)}
    ensures forall w :: w in book && w != Lower(addr) ==> WalletStep(book, addr, remote, mode).book[w] == book[w]
  {
    var a := Lower(addr);
    var b0 := book[a := EntryOf(book, a)];
    assert b0.Keys == book.Keys + {a};
    var native := ClassStep(b0, a, Native, Fetch(remote(a, Native)), [], mode);
    assert native.book.Keys == b0.Keys;
  }

  /** Within the wallet's entry only the keys "normal" and "token" can change. */
  lemma StepWritesOnlyMarkers(book: Book, addr: string, remote: Remote, mode: string)
    ensures forall k :: k != "normal" && k != "token" ==>
      Lookup(WalletStep(book, addr, remote, mode).book[Lower(addr)], k) == Lookup(EntryOf(book, Lower(addr)), k)
  {
    var a := Lower(addr);
    var e0 := EntryOf(book, a);
    var fetched := Fetch(remote(a, Native));
    if fetched.Success? {
      var e1 := ClassUpdate(e0, Native, fetched.value, mode);
      ClassWritesOnlyItsKey(e0, Native, fetched.value, mode);
      var tokens := Fetch(remote(a, Token));
      if tokens.Success? {
        ClassWritesOnlyItsKey(e1, Token, tokens.value, mode);
      }
    }
  }

  /**
   * A failed token fetch does not undo the native class: its marker update and its
   * notifications stay, the token marker is as it was, and the wallet reports a failure.
   */
  lemma TokenFailureKeepsNative(book: Book, addr: string, remote: Remote, mode: string)
    requires Fetch(remote(Lower(addr), Native)).Success?
    requires Fetch(remote(Lower(addr), Token)).Failure?
    ensures var a := Lower(addr);
      var e0 := EntryOf(book, a);
      var v := ClassVerdict(e0, Native, Fetch(remote(a, Native)).value, mode);
      var s := WalletStep(book, addr, remote, mode);
      && !s.ok
      && Lookup(s.book[a], "normal") == Advance(Lookup(e0, "normal"), v)
      && Lookup(s.book[a], "token") == Lookup(e0, "token")
      && s.events == Announcements(a, Native, v.emitted)
  {
    var a := Lower(addr);
    ClassWritesOnlyItsKey(EntryOf(book, a), Native, Fetch(remote(a, Native)).value, mode);
  }

  /** A failed native fetch sends nothing and changes nothing but the creation of the entry. */
  lemma NativeFailureOnlyCreatesEntry(book: Book, addr: string, remote: Remote, mode: string)
    requires Fetch(remote(Lower(addr), Native)).Failure?
    ensures var s := WalletStep(book, addr, remote, mode);
      && !s.ok && s.events == []
      && s.book == book[Lower(addr) := EntryOf(book, Lower(addr))]
  {
  }

  /**
   * The same wallet processed again against the same explorer replies (a repeated
   * entry of the list, in any letter case) sends nothing and writes what is there.
   */
  lemma StepIdempotent(book: Book, addr: string, again: string, remote: Remote, mode: string)
    requires Lower(again) == Lower(addr)
    ensures WalletStep(WalletStep(book, addr, remote, mode).book, again, remote, mode).events == []
    ensures WalletStep(WalletStep(book, addr, remote, mode).book, again, remote, mode).book
         == WalletStep(book, addr, remote, mode).book
  {
    var a := Lower(addr);
    var b0 := book[a := EntryOf(book, a)];
    var natives := Fetch(remote(a, Native));
    var tokens := Fetch(remote(a, Token));
    var n1 := ClassStep(b0, a, Native, natives, [], mode);
    var s1 := WalletStep(book, addr, remote, mode);
    var bk := s1.book;
    assert a in bk;
    assert bk[a := EntryOf(bk, a)] == bk;
    if natives.Success? {
      UpdateMakesSeen(b0[a], Native, natives.value, mode);
      if tokens.Success? {
        UpdateKeepsOtherSeen(n1.book[a], Token, tokens.value, Native, natives.value, mode);
        UpdateMakesSeen(n1.book[a], Token, tokens.value, mode);
        ClassStepStable(bk, a, Native, natives, [], mode);
        ClassStepStable(bk, a, Token, tokens, [], mode);
      } else {
        ClassStepStable(bk, a, Native, natives, [], mode);
      }
    } else {
      ClassStepStable(bk, a, Native, natives, [], mode);
    }
  }

  /** The set of entries a run creates: the lower-cased addresses of the listed wallets. */
  function Addresses(ws: seq<string>): (keys: set<string>)
  {
    if ws == [] then {} else {Lower(ws[0])} + Addresses(ws[1..])
  }

  /**
   * After a run every listed wallet has an entry, no other entry is created, and a
   * wallet not in the list keeps its entry unchanged.
   */
  lemma {:induction false} RunFrame(book: Book, ws: seq<string>, remote: Remote, mode: string)
    decreases |ws|
    ensures RunWallets(book, ws, remote, mode).0.Keys == book.Keys + Addresses(ws)
    ensures forall w :: w in book && w !in Addresses(ws) ==> RunWallets(book, ws, remote, mode).0[w] == book[w]
  {
    if ws != [] {
      var init := ws[..|ws| - 1];
      var last := ws[|ws| - 1];
      RunFrame(book, init, remote, mode);
      StepFrame(RunWallets(book, init, remote, mode).0, last, remote, mode);
      AddressesSnoc(init, last);
      assert init + [last] == ws;
    }
  }

  lemma {:induction false} AddressesSnoc(ws: seq<string>, w: string)
    ensures Addresses(ws + [w]) == Addresses(ws) + {Lower(w)}
  {
    if ws != [] {
      assert (ws + [w])[1..] == ws[1..] + [w];
      AddressesSnoc(ws[1..], w);
    }
  }

  /**
   * A pass saves the store exactly when both credentials are set and the wallet list
   * is not empty; a saved store holds an entry for every listed wallet and leaves the
   * entries of unlisted wallets as loaded.
   */
  lemma PassSavesOnlyWithWallets(cfg: Config, loaded: Book, remote: Remote)
    ensures Pass(cfg, loaded, remote).Saved? <==>
      && Strip(cfg.etherscanKey) != ""
      && Strip(cfg.telegramToken) != "" && Strip(cfg.chatId) != ""
      && ParseWallets(cfg.walletsRaw) != []
    ensures Pass(cfg, loaded, remote).Saved? ==>
      && Pass(cfg, loaded, remote).book.Keys == loaded.Keys + Addresses(ParseWallets(cfg.walletsRaw))
      && forall w :: w in loaded && w !in Addresses(ParseWallets(cfg.walletsRaw)) ==>
           Pass(cfg, loaded, remote).book[w] == loaded[w]
  {
    RunFrame(loaded, ParseWallets(cfg.walletsRaw), remote, Lower(cfg.initMode));
  }
}
