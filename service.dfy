/**
  The command service as the handlers run it: one object holding the two
  databases, each request a method that updates them call by call. Every
  method is proved to leave the stores, and to reply, as the matching
  function of module Handlers says.
 */
module Service {
  import opened Fingerprint
  import opened Listing
  import opened Handlers

  class QueueService {
    /** The digest the handlers key commands with. */
    const md5: Md5
    /** The primary database: command key to result. */
    var results: map<string, string>
    /** The queue database: command key to command text. */
    var queue: map<string, string>

    function Contents(): Stores
      reads this
    {
      Stores(results, queue)
    }

    constructor (md5: Md5, results: map<string, string>, queue: map<string, string>)
      ensures this.md5 == md5 && Contents() == Stores(results, queue)
    {
      this.md5 := md5;
      this.results := results;
      this.queue := queue;
    }

    /** GET `/`. */
    method ListKeys() returns (reply: Reply)
      ensures reply == List(Contents())
      ensures reply.KeyList? && StrictlySorted(reply.keys)
      ensures forall k :: k in reply.keys <==> k in results
    {
      var keys := results.Keys;
      reply := KeyList(SortedKeys(keys));
    }

    /** POST `/check`. */
    method Check(text: string) returns (reply: Reply)
      modifies this
      ensures Step(Contents(), reply) == Handlers.Check(md5, old(Contents()), text)
    {
      var key := Key(md5, text);
      var keys := results.Keys;
      if key in keys {
        reply := Found(results[key]);
      } else {
        queue := queue[key := text];
        reply := Msg(QueuedMsg);
      }
    }

    /** GET `/run`; `page` is what the queue scan returned. */
    method Run(page: seq<string>) returns (reply: Reply)
      requires ScanPage(Contents(), page)
      modifies this
      ensures Step(Contents(), reply) == Handlers.Run(old(Contents()), page)
    {
      if page == [] {
        reply := Crashed;
        return;
      }
      var key := page[0];
      queue := queue[key := Processing];
      // The command itself is not executed.
      queue := queue - {key};
      results := results[key := Placeholder];
      reply := Msg(FinishedMsg);
    }

    /** DELETE `/remove`; `storeFails` is whether the delete raised. */
    method Remove(text: string, storeFails: bool) returns (reply: Reply)
      modifies this
      ensures Step(Contents(), reply) == Handlers.Remove(md5, old(Contents()), text, storeFails)
    {
      var key := Key(md5, text);
      if storeFails {
        reply := Err(DeleteFailedErr);
        return;
      }
      var count := if key in results then 1 else 0;
      results := results - {key};
      reply := Msg(DeletedMsg(count));
    }

    /** DELETE `/flush`; `storeFails` is whether the flush raised. */
    method Flush(storeFails: bool) returns (reply: Reply)
      modifies this
      ensures Step(Contents(), reply) == Handlers.Flush(old(Contents()), storeFails)
    {
      if storeFails {
        reply := Msg(FlushFailedMsg);
        return;
      }
      results := map[];
      reply := Msg(FlushedMsg);
    }
  }
}
