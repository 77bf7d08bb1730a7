// RESTService (net_lab5/.../service/RESTService.java) with handlers that run one at a time.
module ChatService {
  import opened ChatLog
  import opened Wrappers

  datatype Error = IllegalRequestFormat | NoToken | NonexistentToken | ExistingUsername | UnknownError

  datatype Result<+T> = Ok(value: T) | Err(error: Error)

  /** The Authorization header. */
  datatype Auth = Absent | Malformed | Blank | Token(token: string)

  datatype ContentType = Json | OtherType | NoType

  datatype Body = Text(text: string) | WrongField | Unreadable

  /** A parameter of the query string. */
  datatype Param = Offset(n: int) | Count(n: int) | NotANumber | UnknownParam

  type Channel = nat

  /** The outcome of reading the query: offset and count, or the error the first bad part gives. */
  function Query(params: seq<Param>): Result<(int, int)> {
    if |params| > 2 then Err(IllegalRequestFormat) else QueryFrom(params, 0, 10)
  }

  function QueryFrom(params: seq<Param>, offset: int, count: int): Result<(int, int)>
    decreases |params|
  {
    if params == [] then Ok((offset, count))
    else
      match params[0]
      case Offset(n) => QueryFrom(params[1..], n, count)
      case Count(n) => if n > PAGE_LIMIT then Err(IllegalRequestFormat) else QueryFrom(params[1..], offset, n)
      case NotANumber => Err(UnknownError)
      case UnknownParam => Err(IllegalRequestFormat)
  }

  /** What an authorised request is answered with. */
  function Answer(log: seq<Message>, params: seq<Param>): Result<seq<Message>> {
    match Query(params)
    case Err(e) => Err(e)
    case Ok((offset, count)) => Ok(Page(log, offset, count))
  }

  predicate GoodParam(p: Param) {
    p.Offset? || (p.Count? && p.n <= 100)
  }

  /** No later part of the query is one of those. */
  predicate LastOffset(params: seq<Param>, i: int) {
    0 <= i < |params| && params[i].Offset? && forall j :: i < j < |params| ==> !params[j].Offset?
  }

  predicate LastCount(params: seq<Param>, i: int) {
    0 <= i < |params| && params[i].Count? && forall j :: i < j < |params| ==> !params[j].Count?
  }

  /** The first part that is neither. */
  predicate FirstBad(params: seq<Param>, i: int) {
    0 <= i < |params| && !GoodParam(params[i]) && forall j :: 0 <= j < i ==> GoodParam(params[j])
  }

  lemma {:induction false} QueryFromOkIff(params: seq<Param>, offset: int, count: int)
    ensures var r := QueryFrom(params, offset, count);
            && (r.Ok? <==> forall i :: 0 <= i < |params| ==> GoodParam(params[i]))
            && (r.Err? ==>
                  exists i :: FirstBad(params, i)
                              && r.error == if params[i].NotANumber? then UnknownError else IllegalRequestFormat)
    decreases |params|
  {
    if params != [] {
      var p, rest := params[0], params[1..];
      if GoodParam(p) {
        var o, c := if p.Offset? then p.n else offset, if p.Count? then p.n else count;
        QueryFromOkIff(rest, o, c);
        assert forall i :: 0 < i < |params| ==> params[i] == rest[i - 1];
        if QueryFrom(rest, o, c).Err? {
          var i :| FirstBad(rest, i)
                   && QueryFrom(rest, o, c).error == if rest[i].NotANumber? then UnknownError else IllegalRequestFormat;
          assert FirstBad(params, i + 1);
        }
      } else {
        assert FirstBad(params, 0);
      }
    }
  }

  lemma {:induction false} QueryFromValues(params: seq<Param>, offset: int, count: int)
    requires QueryFrom(params, offset, count).Ok?
    ensures var (o, c) := QueryFrom(params, offset, count).value;
            && (forall i :: LastOffset(params, i) ==> o == params[i].n)
            && ((forall i :: 0 <= i < |params| ==> !params[i].Offset?) ==> o == offset)
            && (forall i :: LastCount(params, i) ==> c == params[i].n)
            && ((forall i :: 0 <= i < |params| ==> !params[i].Count?) ==> c == count)
    decreases |params|
  {
    if params != [] {
      var p, rest := params[0], params[1..];
      QueryFromValues(rest, if p.Offset? then p.n else offset, if p.Count? then p.n else count);
      assert forall i :: 0 < i < |params| ==> params[i] == rest[i - 1];
      assert forall i :: 0 < i && LastOffset(params, i) ==> LastOffset(rest, i - 1);
      assert forall i :: 0 < i && LastCount(params, i) ==> LastCount(rest, i - 1);
    }
  }

  /**
    A query is accepted exactly if it has at most two parts and each is an offset or a count of at
    most 100; then the last offset and the last count in it are used, or 0 and 10. Otherwise the
    error is that of too many parts, or of the first bad one.
   */
  lemma QueryIs(params: seq<Param>)
    ensures var r := Query(params);
            && (r.Ok? <==> |params| <= 2 && forall i :: 0 <= i < |params| ==> GoodParam(params[i]))
            && (r.Ok? ==>
                  && (forall i :: LastOffset(params, i) ==> r.value.0 == params[i].n)
                  && ((forall i :: 0 <= i < |params| ==> !params[i].Offset?) ==> r.value.0 == 0)
                  && (forall i :: LastCount(params, i) ==> r.value.1 == params[i].n)
                  && ((forall i :: 0 <= i < |params| ==> !params[i].Count?) ==> r.value.1 == 10))
            && (|params| > 2 ==> r == Err(IllegalRequestFormat))
            && (|params| <= 2 && r.Err? ==>
                  exists i :: FirstBad(params, i)
                              && r.error == if params[i].NotANumber? then UnknownError else IllegalRequestFormat)
  {
    QueryFromOkIff(params, 0, 10);
    if QueryFrom(params, 0, 10).Ok? { QueryFromValues(params, 0, 10); }
  }

  /** The polling client's request is answered with the log from its offset on, up to 100 messages. */
  lemma PollIsAnswered(log: seq<Message>, n: int)
    ensures var r, from := Answer(log, [Offset(n), Count(100)]), if n < 0 then 0 else n;
            && r.Ok?
            && |r.value| == (if from >= |log| then 0 else if 100 < |log| - from then 100 else |log| - from)
            && (forall i :: 0 <= i < |r.value| ==> r.value[i] == log[from + i])
            && r.value == Page(log, n, PAGE_LIMIT)
  {
    var params := [Offset(n), Count(100)];
    QueryIs(params);
    assert LastOffset(params, 0) && LastCount(params, 1);
    PageIs(log, n, 100);
  }

  /** Every token names a user of its own, and user names are distinct. */
  ghost predicate UsersOk(tokens: map<string, int>, users: map<int, string>, next: nat) {
    && (forall t <- tokens :: tokens[t] in users)
    && (forall i <- users :: 0 <= i < next)
    && (forall t, u :: t in tokens && u in tokens && t != u ==> tokens[t] != tokens[u])
    && (forall i, j :: i in users && j in users && i != j ==> users[i] != users[j])
  }

  lemma AddUser(tokens: map<string, int>, users: map<int, string>, next: nat, token: string, name: string)
    requires UsersOk(tokens, users, next) && token !in tokens && name !in users.Values
    ensures UsersOk(tokens[token := next], users[next := name], next + 1)
  {
  }

  lemma RemoveUser(tokens: map<string, int>, users: map<int, string>, next: nat, token: string)
    requires UsersOk(tokens, users, next) && token in tokens
    ensures UsersOk(tokens - {token}, users - {tokens[token]}, next)
  {
  }

  class RESTService {
    var messagesFile: seq<Message>
    var tokensMap: map<string, int>
    var usersMap: map<int, string>
    var channelMap: map<Channel, nat>
    var currentUserId: nat
    var currentMessageId: nat

    /** What was sent on each channel since it connected. */
    ghost var pushed: map<Channel, seq<seq<Message>>>


    /** The log is numbered by index, and the next number is its length. */
    ghost predicate LogOk()
      reads this`messagesFile, this`currentMessageId
    {
      Numbered(messagesFile) && currentMessageId == |messagesFile|
    }

    /** What was pushed on a channel is the log up to the channel's offset. */
    ghost predicate PushedOk()
      reads this
    {
      && pushed.Keys == channelMap.Keys
      && forall ch <- channelMap ::
           channelMap[ch] <= |messagesFile| && Concat(pushed[ch]) == messagesFile[..channelMap[ch]]
    }

    ghost predicate CaughtUp()
      reads this
    {
      forall ch <- channelMap :: channelMap[ch] == |messagesFile|
    }

    ghost predicate Valid()
      reads this
    {
      UsersOk(tokensMap, usersMap, currentUserId) && LogOk() && PushedOk() && CaughtUp()
    }

    constructor ()
      ensures Valid() && messagesFile == [] && channelMap == map[] && tokensMap == map[]
    {
      messagesFile, tokensMap, usersMap, channelMap := [], map[], map[], map[];
      currentUserId, currentMessageId, pushed := 0, 0, map[];
    }

    /** checkAndGetToken. */
    function CheckToken(auth: Auth): (r: Result<string>)
      reads this
      ensures forall t :: r == Ok(t) <==> auth == Token(t) && t in tokensMap
      ensures r == Err(NonexistentToken) <==> auth.Token? && auth.token !in tokensMap
      ensures r == Err(NoToken) <==> auth.Blank?
      ensures r == Err(IllegalRequestFormat) <==> auth.Malformed?
    {
      match auth
      case Absent => Err(UnknownError)
      case Malformed => Err(IllegalRequestFormat)
      case Blank => Err(NoToken)
      case Token(t) => if t in tokensMap then Ok(t) else Err(NonexistentToken)
    }

    method Login(ct: ContentType, body: Body, uuid: string) returns (r: Result<int>)
      requires Valid() && uuid !in tokensMap
      modifies this`tokensMap, this`usersMap, this`currentUserId
      ensures Valid()
      ensures r.Ok? <==> ct == Json && body.Text? && body.text !in old(usersMap).Values
      ensures ct == Json && body.Text? && body.text in old(usersMap).Values ==> r == Err(ExistingUsername)
      ensures ct == NoType ==> r == Err(UnknownError)
      ensures ct == OtherType ==> r == Err(IllegalRequestFormat)
      ensures ct == Json && body.WrongField? ==> r == Err(IllegalRequestFormat)
      ensures ct == Json && body.Unreadable? ==> r == Err(UnknownError)
      ensures r.Ok? ==> tokensMap == old(tokensMap)[uuid := r.value] && usersMap == old(usersMap)[r.value := body.text]
      ensures r.Ok? ==> r.value !in old(usersMap) && r.value == old(currentUserId) && currentUserId == r.value + 1
      ensures r.Ok? ==> CheckToken(Token(uuid)) == Ok(uuid)
      ensures r.Err? ==> tokensMap == old(tokensMap) && usersMap == old(usersMap)
    {
      if ct == NoType { return Err(UnknownError); }
      if ct == OtherType { return Err(IllegalRequestFormat); }
      match body {
        case WrongField => return Err(IllegalRequestFormat);
        case Unreadable => return Err(UnknownError);
        case Text(username) =>
          if username in usersMap.Values { return Err(ExistingUsername); }
          var id := currentUserId;
          currentUserId := id + 1;
          AddUser(tokensMap, usersMap, id, uuid, username);
          tokensMap := tokensMap[uuid := id];
          usersMap := usersMap[id := username];
          return Ok(id);
      }
    }

    method Logout(auth: Auth) returns (r: Result<string>)
      requires Valid()
      modifies this`tokensMap, this`usersMap
      ensures Valid() && r == old(CheckToken(auth))
      ensures r.Ok? ==> tokensMap == old(tokensMap) - {r.value}
      ensures r.Ok? ==> usersMap == old(usersMap) - {old(tokensMap)[r.value]}
      ensures r.Ok? ==> CheckToken(Token(r.value)) == Err(NonexistentToken)
      ensures forall t :: r != Ok(t) ==> CheckToken(Token(t)) == old(CheckToken(Token(t)))
      ensures r.Err? ==> tokensMap == old(tokensMap) && usersMap == old(usersMap)
    {
      r := CheckToken(auth);
      if r.Err? { return; }
      var id := tokensMap[r.value];
      RemoveUser(tokensMap, usersMap, currentUserId, r.value);
      usersMap := usersMap - {id};
      tokensMap := tokensMap - {r.value};
    }

    // -------------------------------------------------------------- reading the log

    /** Reading `count` messages behind the first `offset`, one by one, as the handler does. */
    method ReadSlice(offset: int, count: int) returns (page: seq<Message>)
      requires count <= PAGE_LIMIT
      ensures page == Page(messagesFile, offset, count)
    {
      var next: nat := 0;
      var i := 0;
      while i < offset && next < |messagesFile|
        invariant next <= |messagesFile| && next == if offset < 0 then 0 else i
        invariant 0 <= i && if offset < 0 then i == 0 else i <= offset
      {
        next := next + 1;
        i := i + 1;
      }
      ghost var lo := next;
      assert lo == Clamp(offset, |messagesFile|);
      page := [];
      i := 0;
      while i < count && next < |messagesFile|
        invariant 0 <= i && if count < 0 then i == 0 else i <= count
        invariant lo <= next <= |messagesFile| && next == lo + i
        invariant page == messagesFile[lo..next]
      {
        page := page + [messagesFile[next]];
        next := next + 1;
        i := i + 1;
      }
      assert next == Clamp(lo + Clamp(count, PAGE_LIMIT), |messagesFile|);
    }

    /** The query string is read part by part; the last value of a parameter counts. */
    method ReadQuery(params: seq<Param>) returns (r: Result<(int, int)>)
      ensures r == Query(params)
    {
      if |params| > 2 { return Err(IllegalRequestFormat); }
      var offset, count, i := 0, 10, 0;
      while i < |params|
        invariant i <= |params|
        invariant QueryFrom(params[i..], offset, count) == Query(params)
      {
        assert params[i..][0] == params[i] && params[i..][1..] == params[i + 1..];
        match params[i] {
          case Offset(n) => offset := n;
          case Count(n) =>
            count := n;
            if count > PAGE_LIMIT { return Err(IllegalRequestFormat); }
          case NotANumber => return Err(UnknownError);
          case UnknownParam => return Err(IllegalRequestFormat);
        }
        i := i + 1;
      }
      return Ok((offset, count));
    }

    /** GET /messages: the query is checked before the token. */
    method GetMessages(params: seq<Param>, auth: Auth) returns (r: Result<seq<Message>>)
      ensures Query(params).Err? ==> r == Err(Query(params).error)
      ensures Query(params).Ok? && CheckToken(auth).Err? ==> r == Err(CheckToken(auth).error)
      ensures Query(params).Ok? && CheckToken(auth).Ok? ==>
                r == Answer(messagesFile, params)
    {
      QueryCountFits(params);
      var q := ReadQuery(params);
      if q.Err? { return Err(q.error); }
      var t := CheckToken(auth);
      if t.Err? { return Err(t.error); }
      var page := ReadSlice(q.value.0, q.value.1);
      return Ok(page);
    }

    // -------------------------------------------------------------- pushing and posting

    /** buildJsonMessages: what the channel has not had yet; its offset moves past it. */
    method BuildJsonMessages(ch: Channel) returns (news: seq<Message>)
      requires ch in channelMap && channelMap[ch] <= |messagesFile|
      modifies this`channelMap
      ensures news == messagesFile[old(channelMap)[ch]..]
      ensures channelMap == old(channelMap)[ch := |messagesFile|]
    {
      var offset := channelMap[ch];
      var next, i := 0, 0;
      while i < offset && next < |messagesFile|
        invariant next == i <= offset
      {
        next, i := next + 1, i + 1;
      }
      news := [];
      while next < |messagesFile|
        invariant offset == next <= |messagesFile|
        invariant old(channelMap)[ch] <= offset && news == messagesFile[old(channelMap)[ch]..offset]
      {
        news := news + [messagesFile[next]];
        next, offset := next + 1, offset + 1;
      }
      channelMap := channelMap[ch := offset];
    }

    /** Sends one channel what it has not had yet. */
    method PushTo(ch: Channel)
      requires PushedOk() && ch in channelMap
      modifies this`channelMap, this`pushed
      ensures PushedOk()
      ensures channelMap == old(channelMap)[ch := |messagesFile|]
      ensures pushed == old(pushed)[ch := old(pushed)[ch] + [messagesFile[old(channelMap)[ch]..]]]
    {
      ghost var offset := channelMap[ch];
      var news := BuildJsonMessages(ch);
      ConcatLast(pushed[ch], news);
      assert messagesFile[..offset] + news == messagesFile[..|messagesFile|];
      pushed := pushed[ch := pushed[ch] + [news]];
    }

    /** The channels in `todo` are as they were; the others have been sent their news. */
    ghost predicate SentExcept(todo: set<Channel>, offsets: map<Channel, nat>, sent: map<Channel, seq<seq<Message>>>)
      reads this
    {
      && todo <= channelMap.Keys == offsets.Keys == pushed.Keys == sent.Keys
      && (forall ch <- offsets :: offsets[ch] <= |messagesFile|)
      && (forall ch <- todo :: channelMap[ch] == offsets[ch] && pushed[ch] == sent[ch])
      && (forall ch <- offsets :: ch !in todo ==>
            channelMap[ch] == |messagesFile| && pushed[ch] == sent[ch] + [messagesFile[offsets[ch]..]])
    }

    /** The loop body: one more channel has been sent its news. */
    method SendTo(ch: Channel, ghost todo: set<Channel>, ghost offsets: map<Channel, nat>,
                  ghost sent: map<Channel, seq<seq<Message>>>)
      requires PushedOk() && ch in todo && SentExcept(todo, offsets, sent)
      modifies this`channelMap, this`pushed
      ensures PushedOk() && SentExcept(todo - {ch}, offsets, sent)
    {
      hide PushedOk;
      PushTo(ch);
    }

    /** sendNewMessages: every channel, in any order, is sent what it has not had yet. */
    method SendNewMessages()
      requires PushedOk()
      modifies this`channelMap, this`pushed
      ensures PushedOk() && CaughtUp()
      ensures channelMap.Keys == old(channelMap).Keys == pushed.Keys == old(pushed).Keys
      ensures forall ch <- channelMap :: old(channelMap)[ch] <= |messagesFile| &&
                pushed[ch] == old(pushed)[ch] + [messagesFile[old(channelMap)[ch]..]]
    {
      hide PushedOk, CaughtUp, SentExcept;
      ghost var offsets, sent := channelMap, pushed;
      NothingSentYet();
      var todo := channelMap.Keys;
      while todo != {}
        invariant PushedOk() && SentExcept(todo, offsets, sent)
        decreases |todo|
      {
        var ch :| ch in todo;
        SendTo(ch, todo, offsets, sent);
        todo := todo - {ch};
      }
      AllSent(offsets, sent);
    }

    lemma NothingSentYet()
      requires PushedOk()
      ensures SentExcept(channelMap.Keys, channelMap, pushed)
    {
    }

    lemma AllSent(offsets: map<Channel, nat>, sent: map<Channel, seq<seq<Message>>>)
      requires SentExcept({}, offsets, sent)
      ensures CaughtUp() && channelMap.Keys == offsets.Keys == pushed.Keys == sent.Keys
      ensures forall ch <- channelMap :: offsets[ch] <= |messagesFile| &&
                pushed[ch] == sent[ch] + [messagesFile[offsets[ch]..]]
    {
    }

    /** GET /wsmessages: the channel starts at 0 and is sent the whole log. */
    method Connect(ch: Channel)
      requires Valid()
      modifies this`channelMap, this`pushed
      ensures Valid() && channelMap.Keys == old(channelMap).Keys + {ch}
      ensures pushed[ch] == [messagesFile]
    {
      hide UsersOk, Numbered;
      channelMap := channelMap[ch := 0];
      pushed := pushed[ch := []];
      SendNewMessages();
      assert [] + [messagesFile[0..]] == [messagesFile];
    }

    /** The number taken, the message behind all others, and the file written back. */
    method Append(text: string, author: string) returns (messageID: int)
      requires LogOk() && PushedOk()
      modifies this`messagesFile, this`currentMessageId
      ensures LogOk() && PushedOk() && messageID == Int32(|old(messagesFile)|)
      ensures messagesFile == old(messagesFile) + [Message(messageID, text, author)]
    {
      hide Int32, Concat;
      messageID := Int32(currentMessageId);
      currentMessageId := currentMessageId + 1;
      var data := messagesFile;
      data := data + [Message(messageID, text, author)];
      messagesFile := data;
      assert forall ch <- channelMap :: messagesFile[..channelMap[ch]] == old(messagesFile)[..channelMap[ch]];
    }

    /** POST /messages: takes a number, appends to the log, and pushes. */
    method Post(ct: ContentType, auth: Auth, body: Body) returns (r: Result<int>)
      requires Valid()
      modifies this`messagesFile, this`currentMessageId, this`channelMap, this`pushed
      ensures Valid()
      ensures r.Ok? <==> ct == Json && CheckToken(auth).Ok? && body.Text?
      ensures ct == NoType ==> r == Err(UnknownError)
      ensures ct == OtherType ==> r == Err(IllegalRequestFormat)
      ensures ct == Json && CheckToken(auth).Err? ==> r == Err(CheckToken(auth).error)
      ensures ct == Json && CheckToken(auth).Ok? && body.WrongField? ==> r == Err(IllegalRequestFormat)
      ensures ct == Json && CheckToken(auth).Ok? && body.Unreadable? ==> r == Err(UnknownError)
      ensures r.Ok? ==>
                && r.value == Int32(|old(messagesFile)|)
                && CheckToken(auth).value in tokensMap && tokensMap[CheckToken(auth).value] in usersMap
                && messagesFile == old(messagesFile)
                     + [Message(r.value, body.text, usersMap[tokensMap[CheckToken(auth).value]])]
      ensures r.Err? ==> messagesFile == old(messagesFile) && channelMap == old(channelMap)
    {
      hide LogOk, PushedOk, CaughtUp, Int32;
      if ct == NoType { return Err(UnknownError); }
      if ct == OtherType { return Err(IllegalRequestFormat); }
      var t := CheckToken(auth);
      if t.Err? { return Err(t.error); }
      match body {
        case WrongField => return Err(IllegalRequestFormat);
        case Unreadable => return Err(UnknownError);
        case Text(text) =>
          var messageID := Append(text, usersMap[tokensMap[t.value]]);
          SendNewMessages();
          return Ok(messageID);
      }
    }
  }

  lemma {:induction false} QueryFromCountFits(params: seq<Param>, offset: int, count: int)
    requires count <= PAGE_LIMIT
    ensures QueryFrom(params, offset, count).Ok? ==> QueryFrom(params, offset, count).value.1 <= PAGE_LIMIT
    decreases |params|
  {
    if params != [] {
      match params[0]
      case Offset(n) => QueryFromCountFits(params[1..], n, count);
      case Count(n) =>
        if n <= PAGE_LIMIT {
          QueryFromCountFits(params[1..], offset, n);
        }
      case _ =>
    }
  }

  /** No accepted query asks for more than a page. */
  lemma QueryCountFits(params: seq<Param>)
    ensures Query(params).Ok? ==> Query(params).value.1 <= PAGE_LIMIT
  {
    QueryFromCountFits(params, 0, 10);
  }
}
