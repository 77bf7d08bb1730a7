// PostMessagesHandler on concurrent worker threads: each post takes a number, reads the log and
// writes it back, and the steps of different posts may interleave in any order.
module Posting {
  import ChatLog

  type Poster = nat

  /** Where a post stands: it holds its number, then also the log it read. */
  datatype Post = Numbered(id: nat, text: string) | Read(id: nat, text: string, data: seq<Entry>)

  /** `id` counts the numbers taken before; the counter is an int, so the message shows `Number`. */
  datatype Entry = Entry(id: nat, text: string) {
    function Number(): int { ChatLog.Int32(id) }
  }

  const INTS := 0x1_0000_0000

  /** next is the atomic counter, not wrapped; at most one post per thread is under way. */
  datatype State = State(next: nat, log: seq<Entry>, posts: map<Poster, Post>)

  datatype Step = TakeId(poster: Poster, text: string) | ReadLog(poster: Poster) | WriteLog(poster: Poster)

  /** A step that its thread is not ready for does nothing. */
  function Next(s: State, step: Step): State {
    match step
    case TakeId(p, text) =>
      if p in s.posts then s else s.(next := s.next + 1, posts := s.posts[p := Numbered(s.next, text)])
    case ReadLog(p) =>
      if p in s.posts && s.posts[p].Numbered? then
        s.(posts := s.posts[p := Read(s.posts[p].id, s.posts[p].text, s.log)])
      else s
    case WriteLog(p) =>
      if p in s.posts && s.posts[p].Read? then
        s.(log := s.posts[p].data + [Entry(s.posts[p].id, s.posts[p].text)], posts := s.posts - {p})
      else s
  }

  function Run(s: State, steps: seq<Step>): State
    decreases |steps|
  {
    if steps == [] then s else Run(Next(s, steps[0]), steps[1..])
  }

  const EMPTY := State(0, [], map[])

  /** Distinct numbers, all taken from the counter, none of them held by a post still under way. */
  ghost predicate DataOk(s: State, data: seq<Entry>) {
    && (forall i :: 0 <= i < |data| ==> data[i].id < s.next)
    && (forall i, j :: 0 <= i < j < |data| ==> data[i].id != data[j].id)
    && (forall p, i :: p in s.posts && 0 <= i < |data| ==> data[i].id != s.posts[p].id)
  }

  ghost predicate Has(data: seq<Entry>, id: nat) {
    exists i :: 0 <= i < |data| && data[i].id == id
  }

  /** What the post read is still the log, or the log has since got a last entry it did not see. */
  ghost predicate Fresh(s: State, data: seq<Entry>) {
    s.log == data || (s.log != [] && !Has(data, s.log[|s.log| - 1].id))
  }

  ghost predicate Inv(s: State) {
    && DataOk(s, s.log)
    && (forall p <- s.posts :: s.posts[p].id < s.next)
    && (forall p, q :: p in s.posts && q in s.posts && p != q ==> s.posts[p].id != s.posts[q].id)
    && (forall p <- s.posts :: s.posts[p].Read? ==> DataOk(s, s.posts[p].data) && Fresh(s, s.posts[p].data))
  }

  lemma TakeIdInv(s: State, p: Poster, text: string)
    requires Inv(s)
    ensures Inv(Next(s, TakeId(p, text)))
  {
    hide Fresh;
    var t := Next(s, TakeId(p, text));
    forall q | q in t.posts && t.posts[q].Read? ensures DataOk(t, t.posts[q].data) && Fresh(t, t.posts[q].data) {
      assert DataOk(s, s.posts[q].data);
      FreshSame(s, t, s.posts[q].data);
    }
  }

  lemma FreshSame(s: State, t: State, data: seq<Entry>)
    requires s.log == t.log && Fresh(s, data)
    ensures Fresh(t, data)
  {
  }

  lemma ReadLogInv(s: State, p: Poster)
    requires Inv(s)
    ensures Inv(Next(s, ReadLog(p)))
  {
    hide Has;
    var t := Next(s, ReadLog(p));
    forall q | q in t.posts && t.posts[q].Read? ensures DataOk(t, t.posts[q].data) && Fresh(t, t.posts[q].data) {
      assert DataOk(s, s.log);
      assert q != p && q in s.posts && s.posts[q].Read? ==> DataOk(s, s.posts[q].data);
    }
  }

  lemma WriteLogInv(s: State, p: Poster)
    requires Inv(s)
    ensures Inv(Next(s, WriteLog(p)))
  {
    hide DataOk, Fresh;
    if p in s.posts && s.posts[p].Read? {
      var t := Next(s, WriteLog(p));
      WrittenDataOk(s, p);
      forall q | q in t.posts && t.posts[q].Read? ensures DataOk(t, t.posts[q].data) && Fresh(t, t.posts[q].data) {
        OtherDataOk(s, p, s.posts[q].data);
      }
    }
  }

  /** The log written back: what the post read, and its own message behind. */
  lemma WrittenDataOk(s: State, p: Poster)
    requires Inv(s) && p in s.posts && s.posts[p].Read?
    ensures DataOk(Next(s, WriteLog(p)), Next(s, WriteLog(p)).log)
  {
    hide Fresh;
    assert DataOk(s, s.posts[p].data);
  }

  /** What another post has read stays in order, and it has not seen the message just written. */
  lemma OtherDataOk(s: State, p: Poster, data: seq<Entry>)
    requires p in s.posts && s.posts[p].Read? && DataOk(s, data)
    ensures DataOk(Next(s, WriteLog(p)), data) && Fresh(Next(s, WriteLog(p)), data)
  {
  }

  lemma NextInv(s: State, step: Step)
    requires Inv(s)
    ensures Inv(Next(s, step))
  {
    match step
    case TakeId(p, text) => TakeIdInv(s, p, text);
    case ReadLog(p) => ReadLogInv(s, p);
    case WriteLog(p) => WriteLogInv(s, p);
  }

  lemma {:induction false} RunKeepsInv(s: State, steps: seq<Step>)
    requires Inv(s)
    ensures Inv(Run(s, steps))
    decreases |steps|
  {
    if steps != [] {
      NextInv(s, steps[0]);
      RunKeepsInv(Next(s, steps[0]), steps[1..]);
    }
  }

  ghost predicate NumbersDistinct(log: seq<Entry>) {
    forall i, j :: 0 <= i < j < |log| ==> log[i].Number() != log[j].Number()
  }

  /**
    Whatever the interleaving of any number of posts, no turn of the counter is logged twice; two
    messages show the same number exactly when whole rounds of the counter lie between them.
   */
  lemma NoNumberTwice(steps: seq<Step>)
    ensures var s := Run(EMPTY, steps);
            && (forall i, j :: 0 <= i < j < |s.log| ==> s.log[i].id != s.log[j].id)
            && (forall i, j :: 0 <= i < j < |s.log| ==>
                  (s.log[i].Number() == s.log[j].Number() <==> (s.log[i].id - s.log[j].id) % INTS == 0))
            && (s.next <= INTS ==> NumbersDistinct(s.log))
  {
    hide Run, Entry.Number;
    RunKeepsInv(EMPTY, steps);
    var s := Run(EMPTY, steps);
    forall i, j | 0 <= i < j < |s.log|
      ensures s.log[i].Number() == s.log[j].Number() <==> (s.log[i].id - s.log[j].id) % INTS == 0
      ensures s.next <= INTS ==> s.log[i].Number() != s.log[j].Number()
    {
      SameNumberIff(s.log[i], s.log[j]);
    }
  }

  lemma SameNumberIff(d: Entry, e: Entry)
    ensures d.Number() == e.Number() <==> (d.id - e.id) % INTS == 0
    ensures d.id < INTS && e.id < INTS && d.id != e.id ==> d.Number() != e.Number()
  {
  }

  /** Writing back keeps every logged message exactly when the log is still the one that was read. */
  lemma WriteLosesNothingIff(s: State, p: Poster)
    requires Inv(s) && p in s.posts && s.posts[p].Read?
    ensures (forall e <- s.log :: e in Next(s, WriteLog(p)).log) <==> s.log == s.posts[p].data
  {
    var data, t := s.posts[p].data, Next(s, WriteLog(p));
    if s.log != data {
      var last := s.log[|s.log| - 1];
      assert last in s.log;
      forall i | 0 <= i < |t.log| ensures t.log[i] != last {
        assert i < |data| ==> t.log[i].id == data[i].id;
      }
    }
  }

  /** Two overlapping posts: both are answered, one message is gone. */
  lemma OverlapLosesOne()
    ensures Run(EMPTY, [TakeId(0, "a"), TakeId(1, "b"), ReadLog(0), ReadLog(1), WriteLog(1), WriteLog(0)]).log
            == [Entry(0, "a")]
  {
  }

  lemma RunIsNext(s: State, step: Step, rest: seq<Step>)
    ensures Run(s, [step] + rest) == Run(Next(s, step), rest)
  {
  }

  /** Posts that do not overlap: one thread after the other goes through its three steps. */
  function OneByOne(posters: seq<(Poster, string)>): seq<Step> {
    if posters == [] then []
    else
      var (p, text) := posters[0];
      [TakeId(p, text), ReadLog(p), WriteLog(p)] + OneByOne(posters[1..])
  }

  /** Without interleaving the log grows by each message in order, numbered by its place. */
  lemma {:induction false} OneByOneKeepsAll(s: State, posters: seq<(Poster, string)>)
    requires s.posts == map[] && s.next == |s.log|
    ensures var t := Run(s, OneByOne(posters));
            && t.posts == map[] && t.next == |t.log| == |s.log| + |posters|
            && s.log <= t.log
            && forall i :: 0 <= i < |posters| ==> t.log[|s.log| + i] == Entry(|s.log| + i, posters[i].1)
    decreases |posters|
  {
    if posters != [] {
      var (p, text) := posters[0];
      var rest := OneByOne(posters[1..]);
      var s1 := Next(s, TakeId(p, text));
      var s2 := Next(s1, ReadLog(p));
      var s3 := Next(s2, WriteLog(p));
      assert s3.posts == map[] && s3.log == s.log + [Entry(|s.log|, text)];
      assert OneByOne(posters) == [TakeId(p, text)] + ([ReadLog(p)] + ([WriteLog(p)] + rest));
      RunIsNext(s, TakeId(p, text), [ReadLog(p)] + ([WriteLog(p)] + rest));
      RunIsNext(s1, ReadLog(p), [WriteLog(p)] + rest);
      RunIsNext(s2, WriteLog(p), rest);
      OneByOneKeepsAll(s3, posters[1..]);
      assert forall i :: 0 < i < |posters| ==> posters[i] == posters[1..][i - 1];
    }
  }

  /** How many posts are safe: every run of up to n posts shows distinct numbers exactly if n fits an int's range. */
  lemma NumbersLastIff(n: nat)
    ensures (forall steps :: Run(EMPTY, steps).next <= n ==> NumbersDistinct(Run(EMPTY, steps).log)) <==> n <= INTS
  {
    forall steps | n <= INTS && Run(EMPTY, steps).next <= n ensures NumbersDistinct(Run(EMPTY, steps).log) {
      NoNumberTwice(steps);
    }
    if n > INTS {
      var posters := seq(INTS + 1, _ => (0, ""));
      var steps := OneByOne(posters);
      OneByOneKeepsAll(EMPTY, posters);
      hide Run, OneByOne;
      var log := Run(EMPTY, steps).log;
      assert |EMPTY.log| == 0 && posters[0].1 == posters[INTS].1 == "";
      assert log[|EMPTY.log| + 0].id == 0 && log[|EMPTY.log| + INTS].id == INTS;
      assert log[0].Number() == log[INTS].Number();
    }
  }
}
