/**
  What each HTTP handler of the command service does to the two key-value
  stores, as functions from the stores before a request to the stores after
  it and the JSON reply. The result store (the primary database) maps a
  command key to the command's result; the queue store maps a command key
  to the command text waiting to be run.
 */
module Handlers {
  import opened Fingerprint
  import opened Listing

  /** The contents of the two databases. */
  datatype Stores = Stores(results: map<string, string>, queue: map<string, string>)

  /** The body a handler answers with, or an exception that escapes it. */
  datatype Reply =
    | Found(value: string)         // {"key": <stored result>}
    | Msg(msg: string)             // {"msg": ...}
    | Err(err: string)             // {"err": ...}
    | KeyList(keys: seq<string>)   // [{"key": k}, ...]
    | Crashed                      // unhandled exception: the server answers 500

  /** The stores after a request, and the reply. */
  datatype Step = Step(stores: Stores, reply: Reply)

  const QueuedMsg: string := "Command added to queue for processing."
  const Processing: string := "Processing..."
  /** The fixed value `/run` records as every command's result. */
  const Placeholder: string := "Jesse Wilson"
  const FinishedMsg: string := "Finished processing command."
  const DeleteFailedErr: string := "Unable to delete key at this time"
  const FlushedMsg: string := "Database cleared"
  const FlushFailedMsg: string := "Unable to flush all keys at this time"

  /** Python's `str` of a non-negative integer. */
  function Decimal(n: nat): string
  {
    if n < 10 then [('0' as int + n) as char] else Decimal(n / 10) + [('0' as int + n % 10) as char]
  }

  /** `f"Successfully deleted {deleted_count} keys"`. */
  function DeletedMsg(count: nat): string
  {
    "Successfully deleted " + Decimal(count) + " keys"
  }

  /** No key is both queued and finished. */
  ghost predicate Separated(s: Stores)
  {
    s.results.Keys !! s.queue.Keys
  }

  /**
    What a `SCAN 0 MATCH cmd_* COUNT 1` page can hold: queued keys that
    match the glob. The page may be empty even when such keys exist, since
    `COUNT` only bounds how much of the key space one call examines.
   */
  predicate ScanPage(s: Stores, page: seq<string>)
  {
    forall k :: k in page ==> k in s.queue && IsCmdKey(k)
  }

  // ------------------------------------------------------------- handlers

  /** GET `/`: the result-store keys, sorted. */
  function List(s: Stores): Reply
  {
    KeyList(SortedKeys(s.results.Keys))
  }

  /** POST `/check`: the stored result if the command has one, else (re)write the command into the queue. */
  function Check(md5: Md5, s: Stores, text: string): Step
  {
    var key := Key(md5, text);
    if key in s.results then Step(s, Found(s.results[key]))
    else Step(s.(queue := s.queue[key := text]), Msg(QueuedMsg))
  }

  /**
    GET `/run`: `page` is the key page that `SCAN 0 MATCH cmd_* COUNT 1`
    returned. An empty page makes the handler fail on `[0]`; otherwise its
    first key leaves the queue and gets the placeholder result.
   */
  function Run(s: Stores, page: seq<string>): Step
    requires ScanPage(s, page)
  {
    if page == [] then Step(s, Crashed)
    else
      var key := page[0];
      Step(Stores(s.results[key := Placeholder], s.queue - {key}), Msg(FinishedMsg))
  }

  /** DELETE `/remove`: delete the command's result; `fails` is whether the store raised. */
  function Remove(md5: Md5, s: Stores, text: string, fails: bool): Step
  {
    var key := Key(md5, text);
    if fails then Step(s, Err(DeleteFailedErr))
    else Step(s.(results := s.results - {key}), Msg(DeletedMsg(if key in s.results then 1 else 0)))
  }

  /** DELETE `/flush`: empty the result store; `fails` is whether the store raised. */
  function Flush(s: Stores, fails: bool): Step
  {
    if fails then Step(s, Msg(FlushFailedMsg)) else Step(s.(results := map[]), Msg(FlushedMsg))
  }

  // ----------------------------------------------------------- properties

  /** The listing names exactly the finished keys, each once, in sorted order. */
  lemma ListExact(s: Stores)
    ensures List(s).KeyList?
    ensures StrictlySorted(List(s).keys)
    ensures forall k :: k in List(s).keys <==> k in s.results
  {
  }

  /** A command with a result gets that result back, and neither store changes. */
  lemma CheckCached(md5: Md5, s: Stores, text: string)
    requires Key(md5, text) in s.results
    ensures Check(md5, s, text).reply == Found(s.results[Key(md5, text)])
    ensures Check(md5, s, text).stores == s
  {
  }

  /**
    A command without a result is queued under its key, with its text; the
    result store and every other queue entry stay as they were.
   */
  lemma CheckEnqueues(md5: Md5, s: Stores, text: string)
    requires Key(md5, text) !in s.results
    ensures var s' := Check(md5, s, text).stores;
      && s'.results == s.results
      && s'.queue.Keys == s.queue.Keys + {Key(md5, text)}
      && s'.queue[Key(md5, text)] == text
      && (forall k :: k in s.queue && k != Key(md5, text) ==> s'.queue[k] == s.queue[k])
    ensures Check(md5, s, text).reply == Msg(QueuedMsg)
  {
  }

  /** The reply depends on the result store alone: the queue is never consulted. */
  lemma CheckIgnoresQueue(md5: Md5, s: Stores, t: Stores, text: string)
    requires s.results == t.results
    ensures Check(md5, s, text).reply == Check(md5, t, text).reply
  {
  }

  /** Re-submitting a command that is already waiting changes nothing. */
  lemma CheckWhileQueued(md5: Md5, s: Stores, text: string)
    requires Key(md5, text) !in s.results
    requires Key(md5, text) in s.queue && s.queue[Key(md5, text)] == text
    ensures Check(md5, s, text) == Step(s, Msg(QueuedMsg))
  {
    assert s.queue[Key(md5, text) := text] == s.queue;
  }

  /** Submitting the same command twice leaves the stores as submitting it once. */
  lemma CheckIdempotent(md5: Md5, s: Stores, text: string)
    ensures var once := Check(md5, s, text);
      Check(md5, once.stores, text).stores == once.stores
  {
    if Key(md5, text) !in s.results {
      CheckWhileQueued(md5, Check(md5, s, text).stores, text);
    }
  }

  /**
    Draining moves one queued `cmd_` key out of the queue and records the
    placeholder as its result; every other entry of both stores is as
    before. An empty page changes nothing.
   */
  lemma RunDrains(s: Stores, page: seq<string>)
    requires ScanPage(s, page)
    ensures page == [] ==> Run(s, page) == Step(s, Crashed)
    ensures page != [] ==>
      var s' := Run(s, page).stores;
      && page[0] in s.queue && IsCmdKey(page[0])
      && Run(s, page).reply == Msg(FinishedMsg)
      && s'.queue.Keys == s.queue.Keys - {page[0]}
      && |s'.queue| == |s.queue| - 1
      && (forall k :: k in s'.queue ==> s'.queue[k] == s.queue[k])
      && s'.results.Keys == s.results.Keys + {page[0]}
      && s'.results[page[0]] == Placeholder
      && (forall k :: k in s.results && k != page[0] ==> s'.results[k] == s.results[k])
  {
  }

  /**
    Submit, drain that command, submit again: the second submission is
    answered from the result store with the placeholder, and the queue ends
    as it began without the command.
   */
  lemma SubmitRunResubmit(md5: Md5, s: Stores, text: string, page: seq<string>)
    requires Key(md5, text) !in s.results
    requires page != [] && page[0] == Key(md5, text)
    requires ScanPage(Check(md5, s, text).stores, page)
    ensures var s1 := Check(md5, s, text).stores;
      Key(md5, text) in s1.queue && IsCmdKey(Key(md5, text))
    ensures var s2 := Run(Check(md5, s, text).stores, page).stores;
      && Check(md5, s2, text) == Step(s2, Found(Placeholder))
      && s2.queue == s.queue - {Key(md5, text)}
  {
    KeyShape(md5, text);
    var key := Key(md5, text);
    assert s.queue[key := text] - {key} == s.queue - {key};
  }

  /**
    Removing a command deletes its result and nothing else, and reports how
    many keys went (1 or 0); when the store raises, nothing changes and the
    error message is returned.
   */
  lemma RemoveDeletes(md5: Md5, s: Stores, text: string, fails: bool)
    ensures fails ==> Remove(md5, s, text, fails) == Step(s, Err(DeleteFailedErr))
    ensures !fails ==>
      var r := Remove(md5, s, text, fails);
      && r.stores.queue == s.queue
      && r.stores.results.Keys == s.results.Keys - {Key(md5, text)}
      && (forall k :: k in r.stores.results ==> r.stores.results[k] == s.results[k])
      && r.reply == Msg(if Key(md5, text) in s.results
                        then "Successfully deleted 1 keys"
                        else "Successfully deleted 0 keys")
  {
  }

  /** A successful flush empties the result store, so the listing is empty; the queue is kept. */
  lemma FlushClears(s: Stores, fails: bool)
    ensures fails ==> Flush(s, fails) == Step(s, Msg(FlushFailedMsg))
    ensures !fails ==>
      var s' := Flush(s, fails).stores;
      && s'.results == map[]
      && s'.queue == s.queue
      && List(s') == KeyList([])
  {
  }

  /** Every handler keeps queued and finished keys apart. */
  lemma HandlersKeepSeparated(md5: Md5, s: Stores, text: string, page: seq<string>, fails: bool)
    requires Separated(s)
    ensures Separated(Check(md5, s, text).stores)
    ensures ScanPage(s, page) ==> Separated(Run(s, page).stores)
    ensures Separated(Remove(md5, s, text, fails).stores)
    ensures Separated(Flush(s, fails).stores)
  {
  }
}
