/** Forum threads: creating, editing, deleting and reacting over arbitrary histories, and
    cursor pagination over a thread that keeps growing. */
module Forum {
  import opened Common

  datatype Message = Message(
    forum: RowId, author: RowId, parent: Option<RowId>, createdAt: int, content: string, deleted: bool)

  type Messages = map<RowId, Message>

  datatype ReactionType = Like | Dislike | Fire

  /** The key under which a reaction is unique. */
  datatype Reaction = Reaction(message: RowId, user: RowId, kind: ReactionType)

  datatype State = State(messages: Messages, reactions: set<Reaction>)

  datatype Error = NotFound | Forbidden | BadRequest

  /** `id` and `now` are the fresh key and the time that the database supplies. */
  datatype Request =
    | Create(forum: RowId, user: RowId, parent: Option<RowId>, content: string, id: RowId, now: int)
    | Edit(message: RowId, user: RowId, admin: bool, content: string)
    | Delete(message: RowId, admin: bool)
    | Toggle(message: RowId, user: RowId, kind: ReactionType)

  datatype Reply = Reply(state: State, error: Option<Error>)

  function Fail(s: State, e: Error): Reply {
    Reply(s, Some(e))
  }

  // ---- Contents -----------------------------------------------------------------------

  /** Removes every `<`, the text up to the next `>`, and that `>`. */
  function StripTags(text: string): string
    decreases |text|
  {
    if text == [] then []
    else if text[0] == '<' && '>' in text then StripTags(text[Close(text) + 1..])
    else [text[0]] + StripTags(text[1..])
  }

  function Close(text: string): (i: nat)
    requires '>' in text
    ensures i < |text| && text[i] == '>' && '>' !in text[..i]
  {
    if text[0] == '>' then 0 else 1 + Close(text[1..])
  }

  /** Position k lies in a tag: an opening bracket at or before it, no closing one between
      the two, and a closing one at k or later. */
  predicate InTag(text: string, k: nat)
    requires k < |text|
  {
    (exists i: nat | i <= k :: text[i] == '<' && '>' !in text[i..k]) && '>' in text[k..]
  }

  /** The characters from position lo up to hi that are in no tag. */
  function Outside(text: string, lo: nat, hi: nat): string
    requires lo <= hi <= |text|
    decreases hi - lo
  {
    if lo == hi then [] else Outside(text, lo, hi - 1) + if InTag(text, hi - 1) then [] else [text[hi - 1]]
  }

  predicate HasTag(text: string) {
    exists i, j | 0 <= i < j < |text| :: text[i] == '<' && text[j] == '>'
  }

  lemma {:induction false} StripKeepsOnly(text: string, ch: char)
    ensures ch in StripTags(text) ==> ch in text
    decreases |text|
  {
    if text != [] {
      if text[0] == '<' && '>' in text {
        StripKeepsOnly(text[Close(text) + 1..], ch);
      } else {
        StripKeepsOnly(text[1..], ch);
      }
    }
  }

  /** Stored text never contains an opening bracket with a closing one behind it, and text
      without such a pair is stored as it is. */
  lemma {:induction false} NoTagSurvives(text: string)
    ensures !HasTag(StripTags(text))
    ensures !HasTag(text) ==> StripTags(text) == text
    decreases |text|
  {
    if text != [] {
      if text[0] == '<' && '>' in text {
        NoTagSurvives(text[Close(text) + 1..]);
        assert text[0] == '<' && text[Close(text)] == '>';
      } else {
        var rest := StripTags(text[1..]);
        NoTagSurvives(text[1..]);
        StripKeepsOnly(text[1..], '>');
        forall i, j | 0 <= i < j < |[text[0]] + rest|
          ensures !(([text[0]] + rest)[i] == '<' && ([text[0]] + rest)[j] == '>')
        {
          if i == 0 {
            assert ([text[0]] + rest)[j] in rest;
          }
        }
        if HasTag(text[1..]) {
          var i, j :| 0 <= i < j < |text[1..]| && text[1..][i] == '<' && text[1..][j] == '>';
          assert text[i + 1] == '<' && text[j + 1] == '>';
        }
      }
    }
  }

  // ---- What is removed, position by position -------------------------------------------

  lemma {:induction false} OutsideJoins(text: string, lo: nat, mid: nat, hi: nat)
    requires lo <= mid <= hi <= |text|
    ensures Outside(text, lo, hi) == Outside(text, lo, mid) + Outside(text, mid, hi)
    decreases hi - mid
  {
    if mid < hi {
      hide InTag;
      OutsideJoins(text, lo, mid, hi - 1);
    }
  }

  lemma CloseBetween(text: string, i: nat, c: nat, k: nat)
    requires i <= c < k <= |text| && text[c] == '>'
    ensures '>' in text[i..k]
  {
    assert text[i..k][c - i] == '>';
  }

  /** What lies before a closing bracket does not matter behind it. */
  lemma BehindClose(text: string, d: nat, k: nat)
    requires d <= k < |text| && (d == 0 || text[d - 1] == '>')
    ensures InTag(text, k) <==> InTag(text[d..], k - d)
  {
    assert text[d..][k - d..] == text[k..];
    if i: nat :| i <= k && text[i] == '<' && '>' !in text[i..k] {
      if i < d {
        CloseBetween(text, i, d - 1, k);
        assert false;
      }
      assert text[d..][i - d] == '<' && text[d..][i - d..k - d] == text[i..k];
    }
    if i: nat :| i <= k - d && text[d..][i] == '<' && '>' !in text[d..][i..k - d] {
      assert text[i + d] == '<' && text[i + d..k] == text[d..][i..k - d];
    }
  }

  /** A character that opens no tag does not matter for those behind it. */
  lemma BehindPlain(text: string, k: nat)
    requires text != [] && !(text[0] == '<' && '>' in text) && k < |text| - 1
    ensures InTag(text, k + 1) <==> InTag(text[1..], k)
  {
    assert text[1..][k..] == text[k + 1..];
    if i: nat :| i <= k + 1 && text[i] == '<' && '>' !in text[i..k + 1] {
      if i == 0 {
        assert '>' !in text;
        assert forall j | k + 1 <= j < |text| :: text[j] in text;
      } else {
        assert text[1..][i - 1] == '<' && text[1..][i - 1..k] == text[i..k + 1];
      }
    }
    if i: nat :| i <= k && text[1..][i] == '<' && '>' !in text[1..][i..k] {
      assert text[i + 1] == '<' && text[i + 1..k + 1] == text[1..][i..k];
    }
  }

  lemma {:induction false} OutsideShifts(text: string, d: nat, n: nat)
    requires d + n <= |text| && forall k: nat | k < n :: InTag(text[d..], k) <==> InTag(text, d + k)
    ensures Outside(text, d, d + n) == Outside(text[d..], 0, n)
    decreases n
  {
    if n > 0 {
      hide InTag;
      OutsideShifts(text, d, n - 1);
      assert InTag(text[d..], n - 1) <==> InTag(text, d + (n - 1));
      assert text[d..][n - 1] == text[d + n - 1];
    }
  }

  lemma {:induction false} NothingOutside(text: string, n: nat)
    requires n <= |text| && forall k: nat | k < n :: InTag(text, k)
    ensures Outside(text, 0, n) == []
    decreases n
  {
    if n > 0 {
      hide InTag;
      NothingOutside(text, n - 1);
    }
  }

  lemma TagRemoved(text: string)
    requires text != [] && text[0] == '<' && '>' in text
    ensures Outside(text, 0, Close(text) + 1) == []
  {
    var c := Close(text);
    forall k: nat | k < c + 1
      ensures InTag(text, k)
    {
      assert text[0] == '<' && '>' !in text[0..k] by { assert forall j | 0 <= j < k :: text[j] == text[..c][j]; }
      assert text[k..][c - k] == '>';
    }
    NothingOutside(text, c + 1);
  }

  /** Exactly the characters in tags are removed, and the others stay in their order. */
  lemma {:induction false} StripsExactly(text: string)
    ensures StripTags(text) == Outside(text, 0, |text|)
    decreases |text|
  {
    NothingToStrip();
    hide Outside;
    hide InTag;
    if text == [] {
    } else if text[0] == '<' && '>' in text {
      StripsExactly(text[Close(text) + 1..]);
      OutsideBehindTag(text);
    } else {
      StripsExactly(text[1..]);
      OutsideBehindPlain(text);
    }
  }

  lemma NothingToStrip()
    ensures Outside([], 0, 0) == []
  {
  }

  lemma OutsideBehindTag(text: string)
    requires text != [] && text[0] == '<' && '>' in text
    ensures var rest := text[Close(text) + 1..]; Outside(text, 0, |text|) == Outside(rest, 0, |rest|)
  {
    hide InTag;
    hide Outside;
    var d := Close(text) + 1;
    TagRemoved(text);
    forall k: nat | k < |text| - d
      ensures InTag(text[d..], k) <==> InTag(text, d + k)
    {
      BehindClose(text, d, d + k);
    }
    OutsideShifts(text, d, |text| - d);
    OutsideJoins(text, 0, d, |text|);
  }

  lemma OutsideBehindPlain(text: string)
    requires text != [] && !(text[0] == '<' && '>' in text)
    ensures var rest := text[1..]; Outside(text, 0, |text|) == [text[0]] + Outside(rest, 0, |rest|)
  {
    hide InTag;
    hide Outside;
    forall k: nat | k < |text| - 1
      ensures InTag(text[1..], k) <==> InTag(text, 1 + k)
    {
      BehindPlain(text, k);
    }
    OutsideShifts(text, 1, |text| - 1);
    OutsideJoins(text, 0, 1, |text|);
    PlainStays(text);
  }

  lemma PlainStays(text: string)
    requires text != [] && !(text[0] == '<' && '>' in text)
    ensures Outside(text, 0, 1) == [text[0]]
  {
    assert text[0..] == text;
    assert Outside(text, 0, 0) == [];
  }

  // ---- Requests -----------------------------------------------------------------------

  function CreateMessage(s: State, forum: RowId, user: RowId, parent: Option<RowId>, content: string, id: RowId, now: int): Reply {
    if parent.Some? && (parent.value !in s.messages || s.messages[parent.value].forum != forum) then Fail(s, BadRequest)
    else if parent.Some? && s.messages[parent.value].parent.Some? then Fail(s, BadRequest)
    else if parent.Some? && s.messages[parent.value].deleted then Fail(s, BadRequest)
    else Reply(s.(messages := s.messages[id := Message(forum, user, parent, now, StripTags(content), false)]), None)
  }

  function UpdateMessage(s: State, m: RowId, user: RowId, admin: bool, content: string): Reply {
    if m !in s.messages then Fail(s, NotFound)
    else if s.messages[m].deleted then Fail(s, BadRequest)
    else if s.messages[m].author != user && !admin then Fail(s, Forbidden)
    else Reply(s.(messages := s.messages[m := s.messages[m].(content := StripTags(content))]), None)
  }

  /** Only marks the message; its replies and its place stay. */
  function DeleteMessage(s: State, m: RowId, admin: bool): Reply {
    if m !in s.messages then Fail(s, NotFound)
    else if !admin then Fail(s, Forbidden)
    else Reply(s.(messages := s.messages[m := s.messages[m].(deleted := true, content := "")]), None)
  }

  function ToggleReaction(s: State, m: RowId, user: RowId, kind: ReactionType): Reply {
    if m !in s.messages then Fail(s, NotFound)
    else if s.messages[m].deleted then Fail(s, BadRequest)
    else
      var r := Reaction(m, user, kind);
      Reply(s.(reactions := if r in s.reactions then s.reactions - {r} else s.reactions + {r}), None)
  }

  function Step(s: State, request: Request): Reply {
    match request
    case Create(forum, user, parent, content, id, now) => CreateMessage(s, forum, user, parent, content, id, now)
    case Edit(m, user, admin, content) => UpdateMessage(s, m, user, admin, content)
    case Delete(m, admin) => DeleteMessage(s, m, admin)
    case Toggle(m, user, kind) => ToggleReaction(s, m, user, kind)
  }

  function After(s: State, requests: seq<Request>): State {
    if requests == [] then s else Step(After(s, Front(requests)), Last(requests)).state
  }

  /** The database supplies keys that are not in use. */
  ghost predicate FreshKeys(s: State, requests: seq<Request>) {
    requests == []
    || (FreshKeys(s, Front(requests))
        && (Last(requests).Create? ==> Last(requests).id !in After(s, Front(requests)).messages))
  }

  // ---- Thread structure ---------------------------------------------------------------

  /** Threads are one level deep and stay inside one forum. */
  predicate Threaded(messages: Messages) {
    forall m | m in messages && messages[m].parent.Some? ::
      var p := messages[m].parent.value;
      p in messages && messages[p].parent.None? && messages[p].forum == messages[m].forum
  }

  /** No message of `a` is lost or moved in `b`. */
  predicate Kept(a: Messages, b: Messages) {
    forall m | m in a :: m in b && b[m].forum == a[m].forum && b[m].parent == a[m].parent
      && b[m].createdAt == a[m].createdAt && b[m].author == a[m].author && (a[m].deleted ==> b[m].deleted)
  }

  /** Over every history, threads keep their structure and nothing disappears. */
  lemma {:induction false} ThreadsHold(s: State, requests: seq<Request>)
    requires Threaded(s.messages) && FreshKeys(s, requests)
    ensures Threaded(After(s, requests).messages) && Kept(s.messages, After(s, requests).messages)
  {
    if requests != [] {
      ThreadsHold(s, Front(requests));
      ThreadStep(After(s, Front(requests)), Last(requests));
      hide Step;
    }
  }

  lemma ThreadStep(s: State, request: Request)
    requires Threaded(s.messages) && (request.Create? ==> request.id !in s.messages)
    ensures Threaded(Step(s, request).state.messages) && Kept(s.messages, Step(s, request).state.messages)
  {
    hide StripTags;
  }

  // ---- Who may do what, and what is stored --------------------------------------------

  /** Who may: anybody answers a live top-level message of the forum; the author or an admin
      edits a live message; an admin deletes; anybody reacts to a live message. */
  predicate Allowed(s: State, request: Request) {
    match request
    case Create(forum, _, parent, _, _, _) =>
      parent.Some? ==>
        && parent.value in s.messages && s.messages[parent.value].forum == forum
        && s.messages[parent.value].parent.None? && !s.messages[parent.value].deleted
    case Edit(m, user, admin, _) =>
      m in s.messages && !s.messages[m].deleted && (admin || s.messages[m].author == user)
    case Delete(m, admin) => m in s.messages && admin
    case Toggle(m, _, _) => m in s.messages && !s.messages[m].deleted
  }

  /** What a refused request is told: nothing there, not to be done, or not by him. */
  function Refusal(s: State, request: Request): Error {
    match request
    case Create(_, _, _, _, _, _) => BadRequest
    case Edit(m, _, _, _) => if m !in s.messages then NotFound else if s.messages[m].deleted then BadRequest else Forbidden
    case Delete(m, _) => if m !in s.messages then NotFound else Forbidden
    case Toggle(m, _, _) => if m !in s.messages then NotFound else BadRequest
  }

  /** A request succeeds exactly if it is allowed, changes one message or one reaction, and
      a refused one changes nothing. Text is stored without the characters in tags. */
  lemma RequestsExactly(s: State, request: Request)
    ensures Step(s, request).error.None? <==> Allowed(s, request)
    ensures !Allowed(s, request) ==> Step(s, request) == Reply(s, Some(Refusal(s, request)))
    ensures Allowed(s, request) ==>
      var t := Step(s, request).state;
      match request
      case Create(forum, user, parent, content, id, now) =>
        && t.reactions == s.reactions && t.messages.Keys == s.messages.Keys + {id}
        && (forall m | m in s.messages && m != id :: t.messages[m] == s.messages[m])
        && t.messages[id] == Message(forum, user, parent, now, Outside(content, 0, |content|), false)
      case Edit(m, _, _, content) =>
        && t.reactions == s.reactions && t.messages.Keys == s.messages.Keys
        && (forall n | n in s.messages && n != m :: t.messages[n] == s.messages[n])
        && t.messages[m] == s.messages[m].(content := Outside(content, 0, |content|))
      case Delete(m, _) =>
        && t.reactions == s.reactions && t.messages.Keys == s.messages.Keys
        && (forall n | n in s.messages && n != m :: t.messages[n] == s.messages[n])
        && t.messages[m] == s.messages[m].(deleted := true, content := "")
      case Toggle(m, user, kind) =>
        && t.messages == s.messages
        && forall r :: r in t.reactions <==> (r in s.reactions <==> r != Reaction(m, user, kind))
  {
    hide StripTags;
    hide Outside;
    match request
    case Create(_, _, _, content, _, _) => StripsExactly(content);
    case Edit(_, _, _, content) => StripsExactly(content);
    case Delete(_, _) =>
    case Toggle(_, _, _) =>
  }

  ghost predicate NoTags(messages: Messages) {
    forall m | m in messages :: !HasTag(messages[m].content)
  }

  /** Over every history no stored message comes to hold a tag. */
  lemma {:induction false} TagsNeverStored(s: State, requests: seq<Request>)
    requires NoTags(s.messages)
    ensures NoTags(After(s, requests).messages)
  {
    if requests != [] {
      hide Step;
      TagsNeverStored(s, Front(requests));
      TagFreeStep(After(s, Front(requests)), Last(requests));
    }
  }

  lemma TagFreeStep(s: State, request: Request)
    requires NoTags(s.messages)
    ensures NoTags(Step(s, request).state.messages)
  {
    hide StripTags;
    if request.Create? || request.Edit? { NoTagSurvives(request.content); }
    assert !HasTag("");
    hide HasTag;
  }

  /** Text without tags is stored as it was sent. */
  lemma PlainTextStored(s: State, request: Request)
    requires Allowed(s, request) && (request.Create? || request.Edit?) && !HasTag(request.content)
    ensures var t, m := Step(s, request).state, if request.Create? then request.id else request.message;
      m in t.messages && t.messages[m].content == request.content
  {
    NoTagSurvives(request.content);
    hide StripTags;
    hide HasTag;
  }

  /** A message deleted by an admin stays empty and takes no edit and no reaction. */
  lemma {:induction false} DeletedForGood(s: State, requests: seq<Request>, m: RowId)
    requires m in s.messages && FreshKeys(Step(s, Delete(m, true)).state, requests)
    ensures var t := After(Step(s, Delete(m, true)).state, requests);
      && m in t.messages && t.messages[m].deleted && t.messages[m].content == ""
      && (forall user, admin, content :: Step(t, Edit(m, user, admin, content)).error.Some?)
      && (forall user, kind :: Step(t, Toggle(m, user, kind)).error.Some?)
  {
    var d := Step(s, Delete(m, true)).state;
    if requests != [] {
      DeletedForGood(s, Front(requests), m);
      RequestsExactly(After(d, Front(requests)), Last(requests));
      hide Step;
    }
  }

  // ---- Reactions ----------------------------------------------------------------------

  function Toggles(s: State, requests: seq<Request>, r: Reaction): nat {
    if requests == [] then 0
    else
      Toggles(s, Front(requests), r)
      + if Last(requests) == Toggle(r.message, r.user, r.kind)
           && Step(After(s, Front(requests)), Last(requests)).error.None?
        then 1 else 0
  }

  /** Over every history a reaction is there exactly if it was toggled an odd number of
      times, or an even number of times and there before. */
  lemma {:induction false} ReactionParity(s: State, requests: seq<Request>, r: Reaction)
    ensures r in After(s, requests).reactions <==> (r in s.reactions <==> Toggles(s, requests, r) % 2 == 0)
  {
    hide StripTags;
    if requests != [] {
      ReactionParity(s, Front(requests), r);
    }
  }

  /** Two toggles of the same reaction on a live message restore all reactions. */
  lemma TwiceRestores(s: State, m: RowId, user: RowId, kind: ReactionType)
    requires m in s.messages && !s.messages[m].deleted
    ensures var t := Toggle(m, user, kind); Step(Step(s, t).state, t) == Reply(s, None)
  {
    var r, t := Reaction(m, user, kind), Toggle(m, user, kind);
    var twice := Step(Step(s, t).state, t).state;
    if r in s.reactions {
      assert s.reactions - {r} + {r} == s.reactions;
    } else {
      assert s.reactions + {r} - {r} == s.reactions;
    }
  }

  // ---- Pagination ---------------------------------------------------------------------

  /** Newer first, and among equals the larger key first. */
  predicate Precedes(messages: Messages, a: RowId, b: RowId)
    requires a in messages && b in messages
  {
    messages[a].createdAt > messages[b].createdAt || (messages[a].createdAt == messages[b].createdAt && a > b)
  }

  predicate Top(messages: Messages, forum: RowId, m: RowId) {
    m in messages && messages[m].forum == forum && messages[m].parent.None?
  }

  predicate Behind(messages: Messages, cursor: Option<RowId>, m: RowId)
    requires m in messages
  {
    cursor.Some? ==> cursor.value in messages && Precedes(messages, cursor.value, m)
  }

  predicate Descending(messages: Messages, list: seq<RowId>)
    requires forall i | 0 <= i < |list| :: list[i] in messages
  {
    forall i, j | 0 <= i < j < |list| :: Precedes(messages, list[i], list[j])
  }

  /** `list` is the whole thread in display order. */
  ghost predicate Thread(messages: Messages, forum: RowId, list: seq<RowId>) {
    && (forall i | 0 <= i < |list| :: Top(messages, forum, list[i]))
    && Descending(messages, list)
    && (forall m | Top(messages, forum, m) :: m in list)
  }

  /** `answer` is what the database returns for the first n top-level messages behind the
      cursor: they are in order, and whatever is left out comes after all of them. */
  ghost predicate Answers(messages: Messages, forum: RowId, cursor: Option<RowId>, n: nat, answer: seq<RowId>) {
    && |answer| <= n
    && (forall i | 0 <= i < |answer| :: Top(messages, forum, answer[i]) && Behind(messages, cursor, answer[i]))
    && Descending(messages, answer)
    && (forall m | Top(messages, forum, m) && Behind(messages, cursor, m) && m !in answer ::
          |answer| == n && forall i | 0 <= i < n :: Precedes(messages, answer[i], m))
  }

  const MAX_PAGE_SIZE := 50

  /** The page size that a requested limit gets. */
  function Take(limit: int): (n: nat)
    ensures 1 <= n <= 50
    ensures 1 <= limit <= 50 ==> n == limit
    ensures (limit < 1 ==> n == 1) && (limit > 50 ==> n == 50)
  {
    var atLeastOne := if limit < 1 then 1 else limit;
    if atLeastOne > MAX_PAGE_SIZE then MAX_PAGE_SIZE else atLeastOne
  }

  function Items(answer: seq<RowId>, take: nat): seq<RowId> {
    if |answer| > take then answer[..take] else answer
  }

  function NextCursor(answer: seq<RowId>, take: nat): Option<RowId>
    requires take >= 1
  {
    if |answer| > take then Some(answer[take - 1]) else None
  }

  /** Between two fetches anything may happen, but a new top-level message is newer than
      all that were there. */
  ghost predicate PostedLater(a: Messages, b: Messages, forum: RowId) {
    && Kept(a, b)
    && forall m, old_ | Top(b, forum, m) && m !in a && Top(a, forum, old_) && old_ in b :: Precedes(b, m, old_)
  }

  function CursorAt(limits: seq<int>, answers: seq<seq<RowId>>, i: nat): Option<RowId>
    requires i <= |limits| && i <= |answers|
  {
    if i == 0 then None else NextCursor(answers[i - 1], Take(limits[i - 1]))
  }

  /** A reader following the cursor from page to page, while the thread grows. */
  ghost predicate Chain(states: seq<Messages>, forum: RowId, limits: seq<int>, answers: seq<seq<RowId>>) {
    && |states| == |limits| == |answers|
    && (forall i | 0 <= i < |answers| ::
          Answers(states[i], forum, CursorAt(limits, answers, i), Take(limits[i]) + 1, answers[i]))
    && (forall i | 0 < i < |answers| :: CursorAt(limits, answers, i).Some?)
    && (forall i | 0 < i < |states| :: PostedLater(states[i - 1], states[i], forum))
  }

  /** All items read so far. */
  function Read(limits: seq<int>, answers: seq<seq<RowId>>, n: nat): seq<RowId>
    requires n <= |limits| && n <= |answers|
  {
    if n == 0 then [] else Read(limits, answers, n - 1) + Items(answers[n - 1], Take(limits[n - 1]))
  }

  /** What has been read is the beginning of the thread as it was at the first fetch. */
  ghost predicate Beginning(messages: Messages, forum: RowId, read: seq<RowId>, next: Option<RowId>) {
    && (forall i | 0 <= i < |read| :: Top(messages, forum, read[i]))
    && Descending(messages, read)
    && (next.Some? ==> read != [] && next.value == Last(read))
    && (forall m | Top(messages, forum, m) && m !in read :: next.Some? && Behind(messages, next, m))
  }

  lemma FirstPage(messages: Messages, forum: RowId, take: nat, answer: seq<RowId>)
    requires take >= 1 && Answers(messages, forum, None, take + 1, answer)
    ensures Beginning(messages, forum, Items(answer, take), NextCursor(answer, take))
  {
    var items := Items(answer, take);
    forall m | Top(messages, forum, m) && m !in items
      ensures NextCursor(answer, take).Some? && Behind(messages, NextCursor(answer, take), m)
    {
      RestBehind(messages, forum, None, take, answer, m);
    }
  }

  lemma InItems(answer: seq<RowId>, take: nat, i: nat)
    requires i < |answer|
    ensures i < take ==> answer[i] in Items(answer, take)
  {
    assert i < take && |answer| > take ==> answer[..take][i] == answer[i];
  }

  /** What an answer leaves out of the items lies behind the new cursor. */
  lemma RestBehind(messages: Messages, forum: RowId, cursor: Option<RowId>, take: nat, answer: seq<RowId>, m: RowId)
    requires take >= 1 && Answers(messages, forum, cursor, take + 1, answer)
    requires Top(messages, forum, m) && Behind(messages, cursor, m) && m !in Items(answer, take)
    ensures |answer| == take + 1 && Precedes(messages, answer[take - 1], m)
  {
    if m in answer {
      var i :| 0 <= i < |answer| && answer[i] == m;
      InItems(answer, take, i);
    }
  }

  /** A later page continues the beginning, however the thread has grown. */
  lemma NextPage(
    a: Messages, b: Messages, forum: RowId, read: seq<RowId>, cursor: RowId, take: nat, answer: seq<RowId>)
    requires take >= 1 && Beginning(a, forum, read, Some(cursor)) && PostedLater(a, b, forum)
    requires Answers(b, forum, Some(cursor), take + 1, answer)
    ensures Beginning(a, forum, read + Items(answer, take),
                      if |answer| > take then NextCursor(answer, take) else None)
  {
    var items := Items(answer, take);
    forall i | 0 <= i < |items|
      ensures Top(a, forum, items[i]) && Precedes(a, cursor, items[i])
    {
      OldBehind(a, b, forum, cursor, answer[i]);
    }
    assert forall i, j | 0 <= i < j < |items| :: Precedes(b, items[i], items[j]);
    forall m | Top(a, forum, m) && m !in read + items
      ensures |answer| > take && Precedes(a, answer[take - 1], m)
    {
      assert m !in read && m !in items;
      assert Behind(a, Some(cursor), m);
      RestBehind(b, forum, Some(cursor), take, answer, m);
      assert items[take - 1] == answer[take - 1];
    }
    Appended(a, read, items, cursor);
  }

  lemma OldBehind(a: Messages, b: Messages, forum: RowId, cursor: RowId, m: RowId)
    requires PostedLater(a, b, forum) && Top(a, forum, cursor)
    requires Top(b, forum, m) && cursor in b && Precedes(b, cursor, m)
    ensures Top(a, forum, m) && Precedes(a, cursor, m)
  {
  }

  lemma Appended(a: Messages, read: seq<RowId>, items: seq<RowId>, cursor: RowId)
    requires read != [] && Last(read) == cursor
    requires forall i | 0 <= i < |read| :: read[i] in a
    requires forall i | 0 <= i < |items| :: items[i] in a && Precedes(a, cursor, items[i])
    requires Descending(a, read) && Descending(a, items)
    ensures Descending(a, read + items)
  {
    var all := read + items;
    forall i, j | 0 <= i < j < |all|
      ensures Precedes(a, all[i], all[j])
    {
      if i < |read| <= j {
        assert Precedes(a, cursor, items[j - |read|]);
        assert i == |read| - 1 || Precedes(a, read[i], read[|read| - 1]);
      }
    }
  }

  lemma PostedStill(a: Messages, b: Messages, c: Messages, forum: RowId)
    requires PostedLater(a, b, forum) && PostedLater(b, c, forum)
    ensures PostedLater(a, c, forum)
  {
    assert Kept(a, c);
    forall m, o | Top(c, forum, m) && m !in a && Top(a, forum, o) && o in c
      ensures Precedes(c, m, o)
    {
      assert Top(b, forum, o);
      if m in b {
        assert Top(b, forum, m) && Precedes(b, m, o);
      }
    }
  }

  /** However many pages have been read, they are the beginning of the first thread. */
  lemma {:induction false} ReadIsBeginning(
    states: seq<Messages>, forum: RowId, limits: seq<int>, answers: seq<seq<RowId>>, n: nat)
    requires Chain(states, forum, limits, answers) && 1 <= n <= |answers|
    ensures Beginning(states[0], forum, Read(limits, answers, n), CursorAt(limits, answers, n))
    ensures n == 1 || PostedLater(states[0], states[n - 1], forum)
  {
    hide Answers;
    hide PostedLater;
    hide Beginning;
    if n == 1 {
      FirstPage(states[0], forum, Take(limits[0]), answers[0]);
      assert Read(limits, answers, 0) == [];
      assert Read(limits, answers, 1) == Items(answers[0], Take(limits[0]));
    } else {
      ReadIsBeginning(states, forum, limits, answers, n - 1);
      var cursor := CursorAt(limits, answers, n - 1);
      assert PostedLater(states[n - 2], states[n - 1], forum);
      if n > 2 { PostedStill(states[0], states[n - 2], states[n - 1], forum); }
      NextPage(states[0], states[n - 1], forum, Read(limits, answers, n - 1), cursor.value,
               Take(limits[n - 1]), answers[n - 1]);
    }
  }

  /** Following the cursor to its end yields the whole thread of the first fetch, in order,
      without a gap or a repetition, whatever page sizes were asked for and whatever was
      posted, edited or deleted in between. */
  lemma PagesComplete(states: seq<Messages>, forum: RowId, limits: seq<int>, answers: seq<seq<RowId>>)
    requires Chain(states, forum, limits, answers) && answers != []
    requires CursorAt(limits, answers, |answers|) == None
    ensures Thread(states[0], forum, Read(limits, answers, |answers|))
  {
    ReadIsBeginning(states, forum, limits, answers, |answers|);
    var m, read := states[0], Read(limits, answers, |answers|);
    assert forall x | Top(m, forum, x) && x !in read :: CursorAt(limits, answers, |answers|).Some?;
    hide Chain;
  }

  lemma PlaceOf(messages: Messages, forum: RowId, list: seq<RowId>, m: RowId) returns (i: nat)
    requires Thread(messages, forum, list) && Top(messages, forum, m)
    ensures i < |list| && list[i] == m
  {
    assert m in list;
    i :| i < |list| && list[i] == m;
  }

  lemma InDisplayOrder(messages: Messages, forum: RowId, list: seq<RowId>, i: nat, j: nat)
    requires Thread(messages, forum, list)
    ensures i < j < |list| ==> list[i] in messages && list[j] in messages && Precedes(messages, list[i], list[j])
    ensures i < |list| ==> Top(messages, forum, list[i])
  {
  }

  lemma {:induction false} ThreadsAgreeTo(messages: Messages, forum: RowId, a: seq<RowId>, b: seq<RowId>, n: nat)
    requires Thread(messages, forum, a) && Thread(messages, forum, b) && n <= |a|
    ensures n <= |b| && a[..n] == b[..n]
  {
    if n > 0 {
      var k := n - 1;
      ThreadsAgreeTo(messages, forum, a, b, k);
      assert forall x | 0 <= x < k && x < |b| :: a[x] == a[..k][x] == b[..k][x] == b[x];
      var j := PlaceOf(messages, forum, b, a[k]);
      InDisplayOrder(messages, forum, a, j, k);
      var i := PlaceOf(messages, forum, a, b[k]);
      InDisplayOrder(messages, forum, a, k, i);
      InDisplayOrder(messages, forum, b, k, j);
      InDisplayOrder(messages, forum, b, i, k);
      hide Thread;
      assert a[..n] == a[..k] + [a[k]] && b[..n] == b[..k] + [b[k]];
    }
  }

  /** There is one display order only. */
  lemma ThreadUnique(messages: Messages, forum: RowId, a: seq<RowId>, b: seq<RowId>)
    requires Thread(messages, forum, a) && Thread(messages, forum, b)
    ensures a == b
  {
    ThreadsAgreeTo(messages, forum, a, b, |a|);
    ThreadsAgreeTo(messages, forum, b, a, |b|);
  }

  // ---- Following the cursor ends ------------------------------------------------------

  lemma {:induction false} DistinctWithin(list: seq<RowId>, within: set<RowId>)
    requires forall i | 0 <= i < |list| :: list[i] in within
    requires forall i, j | 0 <= i < j < |list| :: list[i] != list[j]
    ensures |list| <= |within|
  {
    if list != [] {
      assert forall i | 0 <= i < |list| - 1 :: Front(list)[i] == list[i] && list[i] != Last(list);
      DistinctWithin(Front(list), within - {Last(list)});
    }
  }

  lemma FullPage(answer: seq<RowId>, take: nat)
    requires take >= 1 && NextCursor(answer, take).Some?
    ensures |Items(answer, take)| == take
  {
  }

  lemma {:induction false} PagesNotEmpty(limits: seq<int>, answers: seq<seq<RowId>>, n: nat)
    requires n <= |limits| && n <= |answers|
    requires forall i | 0 < i <= n :: CursorAt(limits, answers, i).Some?
    ensures |Read(limits, answers, n)| >= n
  {
    hide Items;
    hide NextCursor;
    if n > 0 {
      PagesNotEmpty(limits, answers, n - 1);
      assert CursorAt(limits, answers, n).Some?;
      FullPage(answers[n - 1], Take(limits[n - 1]));
    }
  }

  /** A reader needs at most one page more than there are top-level messages. */
  lemma PagesEnd(states: seq<Messages>, forum: RowId, limits: seq<int>, answers: seq<seq<RowId>>)
    requires Chain(states, forum, limits, answers) && answers != []
    ensures |answers| <= |set m | m in states[0] && Top(states[0], forum, m)| + 1
  {
    var n := |answers| - 1;
    var top := set m | m in states[0] && Top(states[0], forum, m);
    PagesNotEmpty(limits, answers, n);
    if n > 0 {
      ReadIsBeginning(states, forum, limits, answers, n);
      var read := Read(limits, answers, n);
      hide Chain;
      forall i, j | 0 <= i < j < |read|
        ensures read[i] != read[j]
      {
        assert Precedes(states[0], read[i], read[j]);
      }
      DistinctWithin(read, top);
    }
  }

  /** With a clock that only moves forward, every history posts later. */
  ghost predicate ClockForward(s: State, requests: seq<Request>) {
    requests == []
    || (ClockForward(s, Front(requests))
        && (Last(requests).Create? ==>
              forall m | m in After(s, Front(requests)).messages ::
                After(s, Front(requests)).messages[m].createdAt < Last(requests).now))
  }

  lemma {:induction false} HistoriesPostLater(s: State, requests: seq<Request>, forum: RowId)
    requires Threaded(s.messages) && FreshKeys(s, requests) && ClockForward(s, requests)
    ensures PostedLater(s.messages, After(s, requests).messages, forum)
  {
    hide PostedLater;
    if requests == [] {
      StaysPosted(s.messages, forum);
    } else {
      HistoriesPostLater(s, Front(requests), forum);
      var m := After(s, Front(requests));
      RequestPostsLater(m, Last(requests), forum);
      PostedStill(s.messages, m.messages, Step(m, Last(requests)).state.messages, forum);
    }
  }

  lemma StaysPosted(messages: Messages, forum: RowId)
    ensures PostedLater(messages, messages, forum)
  {
  }

  lemma RequestPostsLater(s: State, request: Request, forum: RowId)
    requires request.Create? ==>
      request.id !in s.messages && forall m | m in s.messages :: s.messages[m].createdAt < request.now
    ensures PostedLater(s.messages, Step(s, request).state.messages, forum)
  {
    hide StripTags;
  }

  // ---- Replies ------------------------------------------------------------------------

  /** Messages once each, in the order in which they were posted. */
  predicate OldestFirst(messages: Messages, ids: seq<RowId>) {
    && (forall i | 0 <= i < |ids| :: ids[i] in messages)
    && (forall i, j | 0 <= i < j < |ids| ::
          ids[i] != ids[j] && messages[ids[i]].createdAt <= messages[ids[j]].createdAt)
  }

  /** `answer` is what the database returns for the replies to some messages: each reply
      once, older first. */
  ghost predicate RepliesTo(messages: Messages, ids: seq<RowId>, answer: seq<RowId>) {
    && OldestFirst(messages, answer)
    && (forall i | 0 <= i < |answer| ::
          messages[answer[i]].parent.Some? && messages[answer[i]].parent.value in ids)
    && (forall m | m in messages && messages[m].parent.Some? && messages[m].parent.value in ids :: m in answer)
  }

  /** A message's replies as a page shows them. */
  ghost predicate ShownUnder(messages: Messages, parent: RowId, replies: seq<RowId>) {
    && OldestFirst(messages, replies)
    && (forall i | 0 <= i < |replies| :: messages[replies[i]].parent == Some(parent))
    && (forall m | m in messages && messages[m].parent == Some(parent) :: m in replies)
  }

  /** The replies of one parent among those the database returned, in the same order. */
  function Under(messages: Messages, answer: seq<RowId>, parent: RowId): seq<RowId>
    requires forall i | 0 <= i < |answer| :: answer[i] in messages
  {
    if answer == [] then []
    else
      Under(messages, Front(answer), parent)
      + if messages[Last(answer)].parent == Some(parent) then [Last(answer)] else []
  }

  lemma {:induction false} UnderMembers(messages: Messages, answer: seq<RowId>, parent: RowId)
    requires forall i | 0 <= i < |answer| :: answer[i] in messages
    ensures forall m :: m in Under(messages, answer, parent) <==> m in answer && messages[m].parent == Some(parent)
  {
    if answer != [] {
      UnderMembers(messages, Front(answer), parent);
      assert answer == Front(answer) + [Last(answer)];
    }
  }

  lemma NewestLast(messages: Messages, ids: seq<RowId>, last: RowId)
    requires OldestFirst(messages, ids) && last in messages
    requires forall m | m in ids :: m != last && messages[m].createdAt <= messages[last].createdAt
    ensures OldestFirst(messages, ids + [last])
  {
    assert forall i | 0 <= i < |ids| :: ids[i] in ids;
  }

  lemma BeforeLast(messages: Messages, answer: seq<RowId>, m: RowId)
    requires answer != [] && OldestFirst(messages, answer) && m in Front(answer)
    ensures m != Last(answer) && messages[m].createdAt <= messages[Last(answer)].createdAt
  {
    var i :| 0 <= i < |answer| - 1 && answer[i] == m;
  }

  lemma FrontOldestFirst(messages: Messages, answer: seq<RowId>)
    requires answer != [] && OldestFirst(messages, answer)
    ensures OldestFirst(messages, Front(answer)) && Last(answer) in messages
  {
  }

  lemma {:induction false} UnderOrdered(messages: Messages, answer: seq<RowId>, parent: RowId)
    requires OldestFirst(messages, answer)
    ensures OldestFirst(messages, Under(messages, answer, parent))
  {
    if answer != [] {
      var front, last := Front(answer), Last(answer);
      FrontOldestFirst(messages, answer);
      UnderOrdered(messages, front, parent);
      UnderMembers(messages, front, parent);
      var earlier := Under(messages, front, parent);
      forall m | m in earlier
        ensures m != last && messages[m].createdAt <= messages[last].createdAt
      {
        BeforeLast(messages, answer, m);
      }
      NewestLast(messages, earlier, last);
    }
  }

  datatype Shown = Shown(message: RowId, replies: seq<RowId>)

  datatype Page = Page(messages: seq<Shown>, next: Option<RowId>)

  method GroupReplies(messages: Messages, replies: seq<RowId>) returns (groups: map<RowId, seq<RowId>>)
    requires forall i | 0 <= i < |replies| :: replies[i] in messages && messages[replies[i]].parent.Some?
    ensures forall p :: Group(groups, p) == Under(messages, replies, p)
  {
    groups := map[];
    for n := 0 to |replies|
      invariant forall p :: Group(groups, p) == Under(messages, replies[..n], p)
    {
      var r := replies[n];
      var p := messages[r].parent.value;
      ghost var before := groups;
      groups := groups[p := Group(groups, p) + [r]];
      assert Front(replies[..n + 1]) == replies[..n];
      forall q
        ensures Group(groups, q) == Under(messages, replies[..n + 1], q)
      {
        assert Group(before, q) == Under(messages, replies[..n], q);
      }
    }
    assert replies[..|replies|] == replies;
  }

  lemma AllShown(messages: Messages, items: seq<RowId>, replies: seq<RowId>)
    requires RepliesTo(messages, items, replies)
    ensures forall i | 0 <= i < |items| :: ShownUnder(messages, items[i], Under(messages, replies, items[i]))
  {
    forall i | 0 <= i < |items|
      ensures ShownUnder(messages, items[i], Under(messages, replies, items[i]))
    {
      UnderIsShown(messages, items, replies, items[i]);
    }
  }

  /** One page of a forum: the items and, under each, all its replies in order. */
  method GetForum(
    messages: Messages, forum: RowId, cursor: Option<RowId>, limit: int, answer: seq<RowId>, replies: seq<RowId>)
    returns (page: Page)
    requires Answers(messages, forum, cursor, Take(limit) + 1, answer)
    requires RepliesTo(messages, Items(answer, Take(limit)), replies)
    ensures page.next == NextCursor(answer, Take(limit))
    ensures |page.messages| == |Items(answer, Take(limit))|
    ensures forall i | 0 <= i < |page.messages| ::
      page.messages[i].message == Items(answer, Take(limit))[i]
      && ShownUnder(messages, page.messages[i].message, page.messages[i].replies)
  {
    hide Answers;
    hide ShownUnder;
    hide Under;
    var take := Take(limit);
    var hasMore := |answer| > take;
    var items := if hasMore then answer[..take] else answer;
    var repliesByParent := GroupReplies(messages, replies);
    var shown := [];
    for i := 0 to |items|
      invariant |shown| == i
      invariant forall j | 0 <= j < i :: shown[j] == Shown(items[j], Under(messages, replies, items[j]))
    {
      shown := shown + [Shown(items[i], Group(repliesByParent, items[i]))];
    }
    AllShown(messages, items, replies);
    page := Page(shown, if hasMore then Some(items[|items| - 1]) else None);
  }

  function Group(groups: map<RowId, seq<RowId>>, p: RowId): seq<RowId> {
    if p in groups then groups[p] else []
  }

  lemma UnderIsShown(messages: Messages, ids: seq<RowId>, replies: seq<RowId>, parent: RowId)
    requires RepliesTo(messages, ids, replies) && parent in ids
    ensures ShownUnder(messages, parent, Under(messages, replies, parent))
  {
    UnderMembers(messages, replies, parent);
    UnderOrdered(messages, replies, parent);
    var u := Under(messages, replies, parent);
    forall i | 0 <= i < |u|
      ensures u[i] in messages && messages[u[i]].parent == Some(parent)
    {
      var m := u[i];
      assert m in u;
    }
  }

  // ---- The service --------------------------------------------------------------------

  class Service {
    var messages: Messages
    var reactions: set<Reaction>

    ghost function Tables(): State
      reads this
    {
      State(messages, reactions)
    }

    constructor ()
      ensures Tables() == State(map[], {}) && Threaded(messages)
    {
      messages, reactions := map[], {};
    }

    method CreateMessage(forum: RowId, user: RowId, parent: Option<RowId>, content: string, id: RowId, now: int)
      returns (error: Option<Error>)
      modifies `messages
      ensures Reply(Tables(), error) == Step(old(Tables()), Create(forum, user, parent, content, id, now))
    {
      if parent.Some? {
        if parent.value !in messages || messages[parent.value].forum != forum { return Some(BadRequest); }
        if messages[parent.value].parent.Some? { return Some(BadRequest); }
        if messages[parent.value].deleted { return Some(BadRequest); }
      }
      messages := messages[id := Message(forum, user, parent, now, StripTags(content), false)];
      return None;
    }

    method UpdateMessage(m: RowId, user: RowId, admin: bool, content: string) returns (error: Option<Error>)
      modifies `messages
      ensures Reply(Tables(), error) == Step(old(Tables()), Edit(m, user, admin, content))
    {
      if m !in messages { return Some(NotFound); }
      if messages[m].deleted { return Some(BadRequest); }
      if messages[m].author != user && !admin { return Some(Forbidden); }
      messages := messages[m := messages[m].(content := StripTags(content))];
      return None;
    }

    method DeleteMessage(m: RowId, admin: bool) returns (error: Option<Error>)
      modifies `messages
      ensures Reply(Tables(), error) == Step(old(Tables()), Delete(m, admin))
    {
      if m !in messages { return Some(NotFound); }
      if !admin { return Some(Forbidden); }
      messages := messages[m := messages[m].(deleted := true, content := "")];
      return None;
    }

    /** `reacted` tells the client whether the reaction is there now. */
    method ToggleReaction(m: RowId, user: RowId, kind: ReactionType) returns (error: Option<Error>, reacted: bool)
      modifies `reactions
      ensures Reply(Tables(), error) == Step(old(Tables()), Toggle(m, user, kind))
      ensures error.None? ==> (reacted <==> Reaction(m, user, kind) in reactions)
    {
      reacted := false;
      if m !in messages { return Some(NotFound), false; }
      if messages[m].deleted { return Some(BadRequest), false; }
      var r := Reaction(m, user, kind);
      if r in reactions {
        reactions := reactions - {r};
        return None, false;
      }
      reactions := reactions + {r};
      return None, true;
    }
  }
}
