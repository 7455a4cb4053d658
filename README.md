# Wallet watcher: change detection and run driver

A model of the wallet-watching bot (`bot.py`). It is a batch job. On every run it asks a
blockchain explorer for the latest page of native transactions and of token transfers
of each configured wallet. It compares each page with one stored marker, the hash of
the newest record seen last time. It announces the new records to a chat, oldest first,
and moves the marker. Then it saves the markers.

The project has five modules:

- `Wrappers` (`wrappers.dfy`): `Option` and `Result`.
- `Text` (`text.dfy`): ASCII lower-casing, `str.strip()` with Python's full white-space
  set, `str.split(",")`, the parsing of the wallet list and the `short` display form of an
  address.
- `Explorer` (`explorer.dfy`): the transaction record `Tx`, the decoded explorer reply,
  and the status rule that turns a reply into a page or a failure.
- `Detection` (`detection.dfy`): the change-detection engine as pure functions. `Hashes`
  drops records whose hash is missing or empty. `NewItems` picks the new records. `Detect`
  returns a `Verdict`: the records to announce, oldest first, and the new marker, if any.
  The lemmas state the engine's cases (no hashes, cold start, marker found, marker lost),
  that the marker always ends on the newest hash, and that a second run on the same page
  announces nothing.
- `Driver` (`driver.dfy`): the in-memory store as a class `Store` with a field
  `book: map<string, map<string, string>>`. That field is the state file's `wallets`
  object, keyed by lower-cased address, with entry keys `"normal"` and `"token"`.
  `Store.ProcessClass` and `Store.ProcessWallet` update the store in place, as
  `process_wallet` does. `ProcessAll` is the wallet loop of `main` and `RunPass` is `main`.
  The pure functions `ClassStep`, `WalletStep`, `RunWallets` and `Pass` specify these
  methods, and the lemmas about them state what a run changes and what it leaves alone.

The explorer is a parameter `remote: (string, TxClass) -> Reply`. It gives the reply to
a request for a lower-cased address and a class: an HTTP failure, or a decoded body.
A notification is an `Event`: the lower-cased wallet, the class and the raw record.
What `load_state` returns is the parameter `loaded`. A pass that reaches the save step
ends in `Saved(book, events)`. A pass that stops at a configuration check ends in
`MissingApiKey`, `MissingTelegram` or `NoWallets`, and saves nothing.

Behaviour kept as the code has it:

- The marker is looked up among the filtered hashes (bot.py:98, 108-109). The index
  found there cuts the unfiltered page (bot.py:110). A hash-less record ahead of the
  marker therefore shifts the cut. `Detection.HashlessRecordHidesNewer` shows a newer hashed
  record that is never announced while the marker moves past it.
- A missing marker and an empty marker both count as a cold start (bot.py:103).
- Only the mode `"notify"`, after lower-casing (bot.py:10), announces a cold start.
- Emission and the marker update depend on the filtered hash list being non-empty
  (bot.py:102), not on the raw page being non-empty.

Two more consequences of the code:

- A page with records but no non-empty hash changes nothing, like an empty page
  (bot.py:98, 102).
- A failed fetch stops the wallet where it is. The entry created by `setdefault`
  (bot.py:93) stays. So do a native marker already written before a failed token fetch
  (bot.py:131, 134) and the native notifications already sent. All of it is saved at the
  end of the run (bot.py:191).

## Model

| member | source | states |
|---|---|---|
| `Text.Short` | bot.py:12-16 | the empty address gives "—"; otherwise the result has min(6,n)+3+min(4,n) characters: the first min(6,n) characters of the lower-cased address, then "...", then its last min(4,n) characters |
| `Text.ShortLength` | bot.py:12-16 | for an address of at least 4 characters the display form has min(6,n)+7 characters |
| `Text.ShortIgnoresCase` | bot.py:15-16 | the display form of an address equals that of its lower-cased form |
| `Text.LowerIdempotent` | bot.py:15 | lower-casing is idempotent |
| `Text.StripIsSlice` | bot.py:178 | `strip()` returns a slice of its input; everything cut on either side is white space; the slice starts and ends with a non-space character |
| `Text.StripIdempotent` | bot.py:178 | a stripped string strips to itself |
| `Text.SplitPiecesHaveNoSeparator` | bot.py:178 | no piece of `split(",")` contains a comma |
| `Text.SplitJoin` | bot.py:178 | joining the pieces of a split with the separator gives back the input |
| `Text.SplitAtSeparator` | bot.py:178 | splitting `a + "," + b` gives the pieces of `a` followed by the pieces of `b` |
| `Text.ParsedWalletsAreClean` | bot.py:178 | every parsed wallet is non-empty, equal to its own strip, and holds no comma |
| `Text.ParseWalletsAtComma` | bot.py:178 | the wallets of `a + "," + b` are the wallets of `a` followed by those of `b`, so the input order is kept |
| `Text.ParseWalletsNoComma` | bot.py:178 | text without a comma parses to its stripped self, or to no wallet when it is blank |
| `Explorer.Classify` | bot.py:53-55 | a reply is an error exactly when the status is "0" and the message is not "No transactions found"; otherwise the page is the result field, or empty when it is missing |
| `Explorer.Fetch` | bot.py:45-55 | a transport failure is a failure; a decoded body goes through the status rule |
| `Explorer.NoTransactionsIsEmptyPage` | bot.py:52-55 | "No transactions found" with no result is an empty page, never an error |
| `Detection.Hashes` | bot.py:98 | the filtered hash list is no longer than the page and holds only non-empty hashes |
| `Detection.HashPosOnto` | bot.py:98 | every record with a non-empty hash contributes it: it is the source of some filtered hash |
| `Detection.HashPosIncreasing` | bot.py:98 | the filtered hashes keep page order: a later filtered position comes from a later record |
| `Detection.HashesMember` | bot.py:98 | a hash is in the filtered list exactly when some record of the page carries it, non-empty |
| `Detection.IndexOf` | bot.py:108-109 | `list.index`: the position of the first occurrence of the marker |
| `Detection.Reverse` | bot.py:115 | element k of the reversed sequence is element n-1-k of the input |
| `Detection.HashPos` | bot.py:98 | the k-th filtered hash comes from a raw record at position k or later |
| `Detection.HashesEmptyIff` | bot.py:98-102 | the filtered hash list is empty exactly when no record has a non-empty hash |
| `Detection.HashesHead` | bot.py:98 | the head of the filtered hash list is the hash of the first record that has one |
| `Detection.NothingWithoutHashes` | bot.py:98-102 | a page without a non-empty hash announces nothing and leaves the marker unchanged, even when the page is not empty |
| `Detection.ColdStart` | bot.py:103-106 | with no stored marker, or an empty one, mode "notify" announces the whole page reversed and any other mode announces nothing; the marker becomes the first non-empty hash |
| `Detection.MarkerFound` | bot.py:107-110 | a marker first found at filtered position i announces the first i raw records, oldest first (none when i = 0); the marker becomes the newest hash |
| `Detection.MarkerLost` | bot.py:111-112 | a marker not in the filtered list announces the whole page, oldest first; the marker becomes the newest hash |
| `Detection.MarkerNotOnPage` | bot.py:107-112 | when no record of the page carries the stored marker and some record has a non-empty hash, the whole page is announced, oldest first, and the marker becomes the first non-empty hash |
| `Detection.EmittedIsReversedPrefix` | bot.py:101-131 | in every case the announced records are a prefix of the page, reversed; the marker advances exactly when some record has a non-empty hash, and then to the newest such hash |
| `Detection.MarkerNotReannounced` | bot.py:108-110 | when the marker is found, no record at or behind the marker's own record is announced |
| `Detection.Idempotent` | bot.py:108-131 | running the engine again on the same page with the marker it stored announces nothing and stores the same marker |
| `Detection.HashlessRecordHidesNewer` | bot.py:98-110 | for one concrete page, the filtered index applied to the raw page announces only a hash-less record and skips the newer hashed record "0xC", while the marker moves to "0xC" |
| `Detection.ScenarioMarkerFound` | bot.py:107-115 | for marker 0xAAA and hashes 0xCCC, 0xBBB, 0xAAA, the run announces 0xBBB then 0xCCC and the marker becomes 0xCCC |
| `Driver.Announce` | bot.py:115-128 | one notification per new record, in reverse order of the page, so oldest first |
| `Driver.ClassStep` | bot.py:96-131 | processing one class keeps the set of wallets and every other wallet's entry |
| `Driver.ClassWritesOnlyItsKey` | bot.py:131 | a class writes only its own marker key; that key holds the advanced marker, or its previous value |
| `Driver.UpdateMakesSeen` | bot.py:131 | after a class is processed, its entry holds the newest hash of the page |
| `Driver.UpdateKeepsOtherSeen` | bot.py:131-168 | processing the token class does not disturb the native marker, and the other way round |
| `Driver.SeenIsStable` | bot.py:108-110 | an entry that already holds the newest hash of the page announces nothing and is not changed |
| `Driver.ClassIdempotent` | bot.py:108-131 | one class processed twice on the same page announces nothing the second time and writes nothing new |
| `Driver.Store.ProcessClass` | bot.py:96-131 | announces the verdict's records and rewrites only this wallet's entry, exactly as `ClassStep` says |
| `Driver.Store.ProcessWallet` | bot.py:91-168 | the new store, the notifications sent and the failure flag are those of `WalletStep` on the old store |
| `Driver.ProcessAll` | bot.py:184-189 | the store and the notifications after the wallet loop are those of `RunWallets`: each wallet against the shared store, with failures dropped |
| `Driver.RunPass` | bot.py:170-191 | the outcome of a pass is `Pass`: the three configuration exits, or the saved store and the notifications |
| `Driver.StepFrame` | bot.py:92-93 | after a wallet the store has exactly the old keys plus its lower-cased address, and every other wallet's entry is unchanged |
| `Driver.StepWritesOnlyMarkers` | bot.py:93-168 | in the wallet's entry, only the keys "normal" and "token" can change |
| `Driver.TokenFailureKeepsNative` | bot.py:131-134 | a failed token fetch keeps the native marker update and the native notifications, leaves the token marker unchanged and reports a failure |
| `Driver.NativeFailureOnlyCreatesEntry` | bot.py:93-96 | a failed native fetch sends nothing and changes the store only by creating the wallet's entry |
| `Driver.StepIdempotent` | bot.py:91-168 | the same wallet again, in any letter case and with the same replies, announces nothing and leaves the store as it is |
| `Driver.RunFrame` | bot.py:184-189 | after the loop every listed wallet has an entry, no other entry is created, and unlisted wallets keep their entries |
| `Driver.PassSavesOnlyWithWallets` | bot.py:170-191 | the store is saved exactly when the API key and both chat credentials are set and the wallet list is not empty; a saved store gains entries only for the listed wallets |

## Left out

- The HTTP calls to the explorer and to the chat (bot.py:45-82). The explorer is the `remote` parameter. A notification is an `Event` added to the returned sequence. The sink's success flag is not modelled, because the source never lets it affect the state (bot.py:128, 166).
- `time.sleep` rate limiting (bot.py:97, 135, 189): it only affects timing.
- Reading and writing the state file, JSON encoding and the `updated_at` time stamp (bot.py:31-43). `loaded` is the `wallets` object that `load_state` gives. A file whose shape makes every wallet raise is not modelled: no `wallets` key, or a non-object entry.
- `to_eth`, `to_amount`, `fmt_time` and the text of the messages (bot.py:18-29, 84-89, 116-127, 152-165): floating point, date formatting and presentation. Events carry the raw record.
- Reading the environment (bot.py:6-10): `Config` holds the values `os.getenv` returns. The model applies the same strip and lower-casing.
- The printed diagnostics (bot.py:172-192) and exceptions raised other than by a fetch: a record that is not a JSON object, or a `result` field that is not a list.
- Records whose hash field is a JSON value other than a string or null: `Tx.hash` is a string or absent.
- Driver.RunWallets: `remote` gives one fixed reply per lower-cased address and class for the whole pass. The bot fetches again for a wallet listed twice, for example "0xAbc,0xabc" (bot.py:184-186). That second request could fail or return a newer page, and the model does not express either case. `Driver.StepIdempotent` holds only under this fixed-reply assumption.
- Explorer.Tx: the other fields are strings, so `from`, `to` or `tokenSymbol` cannot hold a value that is not a string. With such a value the bot raises inside the announcement loop (bot.py:116-117, 152-154). That happens after the earlier notifications were sent and before the marker write (bot.py:131, 168). The model does not reach this path.
- Text.Lower: only ASCII letters are lower-cased. Python's `str.lower` also maps letters of other scripts, and for a few of them changes the length. `Text.Short`, the wallet keys and the mode check inherit this.
