// Updater.updateMessages (net_lab5/.../client/RESTClient.java): polling page after page.
module ChatClient {
  import opened ChatLog
  import S = ChatService

  /** The log as successive requests find it: it only grows. */
  ghost predicate Growing(logs: seq<seq<Message>>) {
    && |logs| > 0
    && (forall i, j :: 0 <= i <= j < |logs| ==> logs[i] <= logs[j])
    && (forall i :: 0 <= i < |logs| ==> Numbered(logs[i]) && |logs[i]| <= MAX_INT)
  }

  /** What the n-th request finds; after the last change the log stays as it is. */
  function Seen(logs: seq<seq<Message>>, n: nat): seq<Message>
    requires |logs| > 0
  {
    if n < |logs| then logs[n] else logs[|logs| - 1]
  }

  class Updater {
    var offset: int
    ghost var transcript: seq<Message>

    /** What was printed is the log up to the offset. */
    ghost predicate UpToDateWith(log: seq<Message>)
      reads this
    {
      0 <= offset <= |log| && transcript == log[..offset]
    }

    constructor ()
      ensures offset == 0 && transcript == []
    {
      offset, transcript := 0, [];
    }

    /** One reply: every message is printed and moves the offset; an empty page ends the update. */
    method ReadPage(page: seq<Message>) returns (updateNeeded: bool)
      modifies this
      ensures transcript == old(transcript) + page
      ensures offset == if page == [] then old(offset) else Int32(page[|page| - 1].messageID + 1)
      ensures updateNeeded <==> page != []
    {
      updateNeeded := false;
      var i := 0;
      while i < |page|
        invariant i <= |page|
        invariant transcript == old(transcript) + page[..i]
        invariant offset == if i == 0 then old(offset) else Int32(page[i - 1].messageID + 1)
        invariant updateNeeded <==> i > 0
      {
        updateNeeded := true;
        offset := Int32(page[i].messageID + 1);
        transcript := transcript + [page[i]];
        i := i + 1;
      }
    }

    /** One request, for up to 100 messages from the offset on, as the service answers it; the page is printed. */
    method RequestPage(log: seq<Message>) returns (updateNeeded: bool)
      requires Numbered(log) && |log| <= MAX_INT && UpToDateWith(log)
      modifies this
      ensures UpToDateWith(log) && offset >= old(offset)
      ensures updateNeeded <==> old(offset) < |log|
      ensures updateNeeded <==> old(offset) < offset
    {
      hide Page, Int32, Numbered, Clamp, S.Answer;
      PageEnd(log, offset);
      S.PollIsAnswered(log, offset);
      ghost var from := offset;
      var reply := S.Answer(log, [S.Offset(offset), S.Count(100)]);
      var page := reply.value;
      updateNeeded := ReadPage(page);
      assert log[..from] + log[from..from + |page|] == log[..from + |page|];
    }

    /** Asks for pages until one is empty, while others may go on posting. */
    method UpdateMessages(logs: seq<seq<Message>>) returns (requests: nat)
      requires Growing(logs) && UpToDateWith(logs[0])
      modifies this
      ensures requests >= 1
      ensures UpToDateWith(Seen(logs, requests - 1)) && offset == |Seen(logs, requests - 1)|
      ensures |logs| == 1 ==> transcript == logs[0]
    {
      hide Numbered, Growing, Seen;
      FirstSeen(logs);
      ghost var final := Seen(logs, |logs|);
      requests := 0;
      var updateNeeded := true;
      while updateNeeded
        invariant UpToDateWith(Seen(logs, if requests == 0 then 0 else requests - 1))
        invariant offset <= |final|
        invariant requests == 0 ==> updateNeeded
        invariant !updateNeeded ==> offset == |Seen(logs, requests - 1)|
        decreases |final| - offset, updateNeeded
      {
        GrowthKeeps(logs, requests);
        updateNeeded := RequestPage(Seen(logs, requests));
        requests := requests + 1;
      }
      OnlySeen(logs, requests - 1);
    }

    lemma FirstSeen(logs: seq<seq<Message>>)
      requires Growing(logs)
      ensures |logs| > 0 && Seen(logs, 0) == logs[0] <= Seen(logs, |logs|)
    {
    }

    lemma OnlySeen(logs: seq<seq<Message>>, n: nat)
      requires Growing(logs)
      ensures |logs| == 1 ==> Seen(logs, n) == logs[0]
    {
    }

    lemma GrowthKeeps(logs: seq<seq<Message>>, n: nat)
      requires Growing(logs) && UpToDateWith(Seen(logs, if n == 0 then 0 else n - 1))
      ensures UpToDateWith(Seen(logs, n))
      ensures Numbered(Seen(logs, n)) && |Seen(logs, n)| <= MAX_INT && Seen(logs, n) <= Seen(logs, |logs|)
    {
    }
  }
}
