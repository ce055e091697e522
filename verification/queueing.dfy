/** The last step of the queueing script (main.py): skipping the first
    `offset` songs of the shuffled playlist and queueing songs one at a time
    until the queue limit is reached. The call that adds a song to the
    player's queue is modelled by collecting the song. */
module Queueing {
  import opened Results
  import opened Cli

  /** How many songs a limit lets through when `available` songs are left
      after the offset. No limit and `inf` queue everything; a count queues
      that many, or all that are left when fewer are, but at least one when
      any song is left (so a count of 0 queues one), because the limit is
      tested only after a song has been added. */
  function Allowed(available: nat, limit: Option<Limit>): (n: nat)
    ensures n <= available
    ensures available > 0 ==> n > 0
    ensures limit.Some? && limit.value.Limited? && limit.value.n > 0 ==> n <= limit.value.n
    ensures limit.Some? && limit.value.Limited? && available > 0 ==>
      n >= (if limit.value.n < available then limit.value.n else available)
    ensures limit == Some(Limited(0)) && available > 0 ==> n == 1
    ensures (limit.None? || limit == Some(Unlimited)) ==> n == available
  {
    match limit
    case None => available
    case Some(Unlimited) => available
    case Some(Limited(count)) =>
      if available == 0 then 0
      else if count <= 1 then 1
      else if count < available then count
      else available
  }

  /** Offset the shuffled songs, then queue them in order until the limit is
      reached: the songs queued are the first `Allowed` songs after the
      offset, and an offset past the end leaves nothing to queue. */
  method SelectForQueue<T>(shuffled: seq<T>, offset: nat, limit: Option<Limit>) returns (queued: seq<T>)
    ensures offset >= |shuffled| ==> queued == []
    ensures offset < |shuffled| ==> |queued| == Allowed(|shuffled| - offset, limit)
    ensures forall k :: 0 <= k < |queued| ==> queued[k] == shuffled[offset + k]
  {
    var rest := if offset <= |shuffled| then shuffled[offset..] else [];
    queued := [];
    var idx := 0;
    while idx < |rest|
      invariant idx <= |rest|
      invariant |queued| == idx
      invariant forall k :: 0 <= k < idx ==> queued[k] == rest[k]
      invariant limit.Some? && limit.value.Limited? ==> idx == 0 || idx < limit.value.n
    {
      queued := queued + [rest[idx]];
      if limit.Some? && limit.value.Limited? && idx + 1 >= limit.value.n {
        break;
      }
      idx := idx + 1;
    }
  }
}
