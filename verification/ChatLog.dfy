// The message log of net_lab5: numbering, pages and polling, as functions of the log.
module ChatLog {

  datatype Message = Message(messageID: int, message: string, author: string)

  const MAX_INT := 0x7FFF_FFFF
  const PAGE_LIMIT := 100

  /** The value an int takes when n is counted into it. */
  function Int32(n: int): int {
    (n + 0x8000_0000) % 0x1_0000_0000 - 0x8000_0000
  }

  /** Message numbers are log indices, as far as an int can count. */
  ghost predicate Numbered(log: seq<Message>) {
    forall k :: 0 <= k < |log| ==> log[k].messageID == Int32(k)
  }

  /** The offset a client asks for after message number k is k + 1 exactly while that is an int. */
  lemma NextOffsetIff(k: nat)
    ensures Int32(Int32(k) + 1) == k + 1 <==> k < 0x7FFF_FFFF
  {
  }

  function Clamp(n: int, max: nat): nat {
    if n < 0 then 0 else if n > max then max else n
  }

  /** What a request for `count` messages from `offset` on is answered with. */
  function Page(log: seq<Message>, offset: int, count: int): seq<Message> {
    var lo := Clamp(offset, |log|);
    log[lo..Clamp(lo + Clamp(count, PAGE_LIMIT), |log|)]
  }

  /** A page is the log's messages in order from the offset on, as many as asked for and as there are. */
  lemma PageIs(log: seq<Message>, offset: int, count: int)
    requires count <= 100
    ensures var page, from := Page(log, offset, count), if offset < 0 then 0 else offset;
            && |page| == (if count <= 0 || from >= |log| then 0
                          else if count < |log| - from then count else |log| - from)
            && forall i :: 0 <= i < |page| ==> page[i] == log[from + i]
  {
  }

  /** Everything a client prints that polls an unchanging log from `offset` on. */
  ghost function Poll(log: seq<Message>, offset: int): seq<Message>
    requires Numbered(log) && |log| <= MAX_INT && 0 <= offset <= |log|
    decreases |log| - offset
  {
    var page := Page(log, offset, PAGE_LIMIT);
    if page == [] then []
    else
      PageEnd(log, offset);
      page + Poll(log, Int32(page[|page| - 1].messageID + 1))
  }

  /** The last message of a page says where the next one begins. */
  lemma PageEnd(log: seq<Message>, offset: int)
    requires Numbered(log) && |log| <= MAX_INT && 0 <= offset <= |log|
    ensures var page := Page(log, offset, PAGE_LIMIT);
            && page == log[offset..offset + |page|]
            && (page == [] <==> offset == |log|)
            && (page != [] ==> Int32(page[|page| - 1].messageID + 1) == offset + |page| <= |log|)
  {
  }

  /** Polling delivers every message from the offset on, once and in order. */
  lemma {:induction false} PollDeliversOnce(log: seq<Message>, offset: int)
    requires Numbered(log) && |log| <= MAX_INT && 0 <= offset <= |log|
    ensures Poll(log, offset) == log[offset..]
    decreases |log| - offset
  {
    hide Page, Numbered, Int32;
    var page := Page(log, offset, PAGE_LIMIT);
    PageEnd(log, offset);
    if page != [] {
      PollDeliversOnce(log, offset + |page|);
      assert log[offset..] == log[offset..offset + |page|] + log[offset + |page|..];
    }
  }

  lemma PastTheLastInt(k: nat)
    requires 0x7FFF_FFFF <= k <= 0x7FFF_FFFF + 100
    ensures Int32(Int32(k) + 1) < 0
  {
  }

  /**
    A client's next page after any page of any log: it asks for the message behind that page if and
    only if that one's number is an int; otherwise it is given the first page of the log again.
   */
  lemma PollStartsOver(log: seq<Message>, offset: int)
    requires Numbered(log) && 0 <= offset <= MAX_INT && Page(log, offset, PAGE_LIMIT) != []
    ensures var page := Page(log, offset, PAGE_LIMIT);
            var next := Int32(page[|page| - 1].messageID + 1);
            && (next == offset + |page| <==> offset + |page| <= MAX_INT)
            && (offset + |page| > MAX_INT ==> Page(log, next, PAGE_LIMIT) == log[..PAGE_LIMIT])
  {
    hide Int32;
    var page := Page(log, offset, PAGE_LIMIT);
    var k := offset + |page| - 1;
    assert page[|page| - 1] == log[k];
    NextOffsetIff(k);
    if k >= MAX_INT { PastTheLastInt(k); }
  }
}
