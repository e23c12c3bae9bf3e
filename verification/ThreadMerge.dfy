/** The messages of the thread page (apps/web/lib/thread-view.ts): the merge of what is held with what the server
    answers, the cursor the page refetches from, and the text streamed into a message. */
module ThreadMerge {

  // A map that keeps the order of its insertions is a sequence of messages with distinct ids.

  import opened Wrappers

  datatype Status = Pending | Streaming | Settled(name: string)

  /** `order` is the message's seq; `rest` stands for the fields no function here looks at. */
  datatype Message = Message(id: string, order: int, clientId: Option<string>, status: Status, content: string, rest: string)

  /** The local echo of a send. */
  predicate IsEcho(m: Message) { |m.id| >= 6 && m.id[..6] == "local:" }

  predicate InFlight(m: Message) { m.status.Pending? || m.status.Streaming? }

  predicate Has(s: seq<Message>, id: string) { exists k :: 0 <= k < |s| && s[k].id == id }

  ghost predicate UniqueIds(s: seq<Message>) { forall j, k :: 0 <= j < k < |s| ==> s[j].id != s[k].id }

  // ---------------------------------------------------------------------------------------------
  // The ordered map
  // ---------------------------------------------------------------------------------------------

  /** A value set in an ordered map: in its old place, or at the end. */
  function Put(s: seq<Message>, m: Message): seq<Message> {
    if s == [] then [m] else if s[0].id == m.id then [m] + s[1..] else [s[0]] + Put(s[1..], m)
  }

  function PutAll(s: seq<Message>): seq<Message> {
    if s == [] then [] else Put(PutAll(s[..|s|-1]), s[|s|-1])
  }

  lemma {:induction false} PutHas(s: seq<Message>, m: Message, id: string)
    ensures Has(Put(s, m), id) <==> id == m.id || Has(s, id)
  {
    var p := Put(s, m);
    if s == [] {
      assert p[0] == m;
    } else if s[0].id == m.id {
      HasFront(m, s[1..], id);
      HasFront(s[0], s[1..], id);
      assert s == [s[0]] + s[1..];
    } else {
      PutHas(s[1..], m, id);
      HasFront(s[0], Put(s[1..], m), id);
      HasFront(s[0], s[1..], id);
      assert s == [s[0]] + s[1..];
    }
  }

  lemma HasFront(m: Message, s: seq<Message>, id: string)
    ensures Has([m] + s, id) <==> m.id == id || Has(s, id)
  {
    var t := [m] + s;
    assert t[0] == m && forall k :: 0 <= k < |s| ==> t[k+1] == s[k];
    if Has(t, id) && m.id != id {
      var k :| 0 <= k < |t| && t[k].id == id;
      assert s[k-1].id == id;
    }
  }

  lemma HasPush(s: seq<Message>, m: Message, id: string)
    ensures Has(s + [m], id) <==> Has(s, id) || m.id == id
  {
    var t := s + [m];
    assert t[|s|] == m && forall k :: 0 <= k < |s| ==> t[k] == s[k];
  }

  lemma HasIn(s: seq<Message>, id: string)
    ensures Has(s, id) <==> exists m :: m in s && m.id == id
  {
    if Has(s, id) {
      var k :| 0 <= k < |s| && s[k].id == id;
      assert s[k] in s;
    }
  }

  lemma {:induction false} PutUnique(s: seq<Message>, m: Message)
    requires UniqueIds(s)
    ensures UniqueIds(Put(s, m))
  {
    if s != [] {
      if s[0].id != m.id {
        PutUnique(s[1..], m);
        PutHas(s[1..], m, s[0].id);
      }
    }
  }

  lemma {:induction false} PutMembers(s: seq<Message>, m: Message, x: Message)
    requires UniqueIds(s)
    ensures x in Put(s, m) <==> x == m || (x in s && x.id != m.id)
  {
    if s != [] {
      HasIn(s[1..], s[0].id);
      assert s == [s[0]] + s[1..];
      if s[0].id != m.id { PutMembers(s[1..], m, x); }
    }
  }

  /** The last message of an id. */
  function LastOf(s: seq<Message>, id: string): Option<Message> {
    if s == [] then None else if s[|s|-1].id == id then Some(s[|s|-1]) else LastOf(s[..|s|-1], id)
  }

  /** The map of a list holds the last message of each of its ids. */
  lemma {:induction false} PutAllMembers(s: seq<Message>, x: Message)
    ensures UniqueIds(PutAll(s))
    ensures x in PutAll(s) <==> LastOf(s, x.id) == Some(x)
  {
    if s != [] {
      PutAllMembers(s[..|s|-1], x);
      PutUnique(PutAll(s[..|s|-1]), s[|s|-1]);
      PutMembers(PutAll(s[..|s|-1]), s[|s|-1], x);
      LastHasId(s[..|s|-1], x.id);
    }
  }

  lemma {:induction false} LastHasId(s: seq<Message>, id: string)
    ensures LastOf(s, id).Some? ==> LastOf(s, id).value.id == id && LastOf(s, id).value in s
    ensures LastOf(s, id).Some? <==> Has(s, id)
  {
    if s != [] {
      LastHasId(s[..|s|-1], id);
      HasPush(s[..|s|-1], s[|s|-1], id);
      assert s == s[..|s|-1] + [s[|s|-1]];
    }
  }

  // ---------------------------------------------------------------------------------------------
  // The merge
  // ---------------------------------------------------------------------------------------------

  predicate HasClient(s: seq<Message>, clientId: string) { exists k :: 0 <= k < |s| && s[k].clientId == Some(clientId) }

  /** An echo whose message has arrived. */
  predicate Answered(m: Message, incoming: seq<Message>) {
    IsEcho(m) && m.clientId.Some? && HasClient(incoming, m.clientId.value)
  }

  /** The held messages that stay: the first of each id the answer does not have, save the answered echoes. */
  function Staying(held: seq<Message>, incoming: seq<Message>): seq<Message> {
    if held == [] then []
    else
      var before, m := Staying(held[..|held|-1], incoming), held[|held|-1];
      if Has(incoming, m.id) || Has(before, m.id) || Answered(m, incoming) then before else before + [m]
  }

  /** Streaming on both sides: the longer content stays. */
  function Longer(m: Message, held: Message): Message {
    if m.id == held.id && m.status.Streaming? && held.status.Streaming? && |m.content| < |held.content|
    then m.(content := held.content) else m
  }

  function Lengthened(m: Message, held: seq<Message>): Message {
    if held == [] then m else Longer(Lengthened(m, held[..|held|-1]), held[|held|-1])
  }

  function LengthenAll(s: seq<Message>, held: seq<Message>): seq<Message> {
    seq(|s|, k requires 0 <= k < |s| => Lengthened(s[k], held))
  }

  /** Real messages by order, echoes after them; equal ones may stand either way. */
  predicate MayPrecede(a: Message, b: Message) {
    if IsEcho(a) then IsEcho(b) else IsEcho(b) || a.order <= b.order
  }

  function Insert(m: Message, s: seq<Message>): seq<Message> {
    if s == [] || MayPrecede(m, s[0]) then [m] + s else [s[0]] + Insert(m, s[1..])
  }

  /** A stable sort. */
  function Sort(s: seq<Message>): seq<Message> {
    if s == [] then [] else Insert(s[0], Sort(s[1..]))
  }

  function Merge(held: seq<Message>, incoming: seq<Message>): seq<Message> {
    Sort(LengthenAll(PutAll(incoming) + Staying(held, incoming), held))
  }

  ghost predicate Sorted(s: seq<Message>) {
    forall j, k :: 0 <= j < k < |s| ==> MayPrecede(s[j], s[k])
  }

  lemma {:induction false} PutAllHas(s: seq<Message>, id: string)
    ensures Has(PutAll(s), id) <==> Has(s, id)
  {
    if s != [] {
      PutAllHas(s[..|s|-1], id);
      PutHas(PutAll(s[..|s|-1]), s[|s|-1], id);
      HasPush(s[..|s|-1], s[|s|-1], id);
      assert s == s[..|s|-1] + [s[|s|-1]];
    }
  }

  // ---------------------------------------------------------------------------------------------
  // The loops of the merge
  // ---------------------------------------------------------------------------------------------

  lemma {:induction false} LengthenedKeeps(m: Message, held: seq<Message>)
    ensures Lengthened(m, held) == m.(content := Lengthened(m, held).content)
    ensures |Lengthened(m, held).content| >= |m.content|
  {
    if held != [] { LengthenedKeeps(m, held[..|held|-1]); }
  }

  lemma LengthenKeepsIds(s: seq<Message>, held: seq<Message>)
    ensures |LengthenAll(s, held)| == |s|
    ensures forall k :: 0 <= k < |s| ==> LengthenAll(s, held)[k].id == s[k].id
    ensures forall id :: Has(LengthenAll(s, held), id) <==> Has(s, id)
    ensures UniqueIds(s) ==> UniqueIds(LengthenAll(s, held))
  {
    var t := LengthenAll(s, held);
    forall k | 0 <= k < |s| ensures t[k].id == s[k].id { LengthenedKeeps(s[k], held); }
  }

  /** The place of an id, or the length. */
  method Find(s: seq<Message>, id: string) returns (i: nat)
    ensures i <= |s| && (i < |s| ==> s[i].id == id) && forall k :: 0 <= k < i ==> s[k].id != id
  {
    i := 0;
    while i < |s| && s[i].id != id
      invariant i <= |s| && forall k :: 0 <= k < i ==> s[k].id != id
    {
      i := i + 1;
    }
  }

  method MergeMessages(held: seq<Message>, incoming: seq<Message>) returns (merged: seq<Message>)
    ensures merged == Merge(held, incoming)
  {
    var byId: seq<Message> := [];
    for n := 0 to |incoming|
      invariant byId == PutAll(incoming[..n])
    {
      assert incoming[..n+1][..n] == incoming[..n];
      byId := Put(byId, incoming[n]);
    }
    assert incoming[..|incoming|] == incoming;
    byId := AddStaying(held, incoming, byId);
    EntriesUnique(held, incoming);
    byId := Lengthen(held, byId);
    merged := Sort(byId);
  }

  method AddStaying(held: seq<Message>, incoming: seq<Message>, arrived: seq<Message>) returns (byId: seq<Message>)
    requires arrived == PutAll(incoming)
    ensures byId == arrived + Staying(held, incoming)
  {
    byId := arrived;
    for n := 0 to |held|
      invariant byId == arrived + Staying(held[..n], incoming)
    {
      var m := held[n];
      assert held[..n+1][..n] == held[..n];
      ghost var before := Staying(held[..n], incoming);
      PutAllHas(incoming, m.id);
      HasEither(arrived, before, m.id);
      hide Has, Answered, PutAll;
      if !Has(byId, m.id) && !Answered(m, incoming) {
        assert byId + [m] == arrived + (before + [m]);
        byId := byId + [m];
      }
    }
    assert held[..|held|] == held;
  }

  lemma HasEither(s: seq<Message>, t: seq<Message>, id: string)
    ensures Has(s + t, id) <==> Has(s, id) || Has(t, id)
  {
    HasIn(s, id);
    HasIn(t, id);
    HasIn(s + t, id);
  }

  method Lengthen(held: seq<Message>, s: seq<Message>) returns (byId: seq<Message>)
    requires UniqueIds(s)
    ensures byId == LengthenAll(s, held)
  {
    byId := s;
    for n := 0 to |held|
      invariant byId == LengthenAll(s, held[..n])
    {
      var m := held[n];
      assert held[..n] + [m] == held[..n+1];
      LengthenKeepsIds(s, held[..n]);
      var i := Find(byId, m.id);
      ghost var was := byId;
      if i < |byId| && byId[i].status.Streaming? && m.status.Streaming? && |byId[i].content| < |m.content| {
        byId := byId[i := byId[i].(content := m.content)];
      }
      forall k | 0 <= k < |was| ensures byId[k] == Longer(was[k], m) { }
      assert byId == LengthenAll(s, held[..n+1]);
    }
    assert held[..|held|] == held;
  }

  // ---------------------------------------------------------------------------------------------
  // What the merge holds
  // ---------------------------------------------------------------------------------------------

  lemma {:induction false} StayingHolds(held: seq<Message>, incoming: seq<Message>)
    ensures UniqueIds(Staying(held, incoming))
    ensures forall m :: m in Staying(held, incoming) ==> m in held && !Has(incoming, m.id) && !Answered(m, incoming)
  {
    if held != [] {
      var before, m := Staying(held[..|held|-1], incoming), held[|held|-1];
      StayingHolds(held[..|held|-1], incoming);
      hide Has, Answered;
      assert held == held[..|held|-1] + [m];
    }
  }

  function Entries(held: seq<Message>, incoming: seq<Message>): seq<Message> { PutAll(incoming) + Staying(held, incoming) }

  lemma EntriesUnique(held: seq<Message>, incoming: seq<Message>)
    ensures UniqueIds(Entries(held, incoming))
  {
    StayingHolds(held, incoming);
    var p, s := PutAll(incoming), Staying(held, incoming);
    assert UniqueIds(p) by { PutAllMembers(incoming, Message("", 0, None, Pending, "", "")); }
    forall j, k | 0 <= j < |p| && 0 <= k < |s| ensures p[j].id != s[k].id {
      PutAllHas(incoming, p[j].id);
      assert s[k] in s;
    }
  }

  lemma {:induction false} InsertMembers(m: Message, s: seq<Message>, x: Message)
    ensures x in Insert(m, s) <==> x == m || x in s
  {
    if s != [] && !MayPrecede(m, s[0]) {
      InsertMembers(m, s[1..], x);
      assert s == [s[0]] + s[1..];
    }
  }

  lemma {:induction false} SortMembers(s: seq<Message>, x: Message)
    ensures x in Sort(s) <==> x in s
  {
    if s != [] {
      SortMembers(s[1..], x);
      InsertMembers(s[0], Sort(s[1..]), x);
      assert s == [s[0]] + s[1..];
    }
  }

  lemma {:induction false} InsertSorted(m: Message, s: seq<Message>)
    requires Sorted(s)
    ensures Sorted(Insert(m, s))
  {
    if s != [] && !MayPrecede(m, s[0]) {
      InsertSorted(m, s[1..]);
      var rest := Insert(m, s[1..]);
      forall k | 0 <= k < |rest| ensures MayPrecede(s[0], rest[k]) {
        InsertMembers(m, s[1..], rest[k]);
        assert rest[k] in rest;
      }
    }
  }

  lemma {:induction false} SortSorted(s: seq<Message>)
    ensures Sorted(Sort(s))
  {
    if s != [] {
      SortSorted(s[1..]);
      InsertSorted(s[0], Sort(s[1..]));
    }
  }

  lemma SortHas(s: seq<Message>, id: string)
    ensures Has(Sort(s), id) <==> Has(s, id)
  {
    HasIn(s, id);
    HasIn(Sort(s), id);
    forall x ensures x in Sort(s) <==> x in s { SortMembers(s, x); }
  }

  lemma {:induction false} InsertUnique(m: Message, s: seq<Message>)
    requires UniqueIds(s) && !Has(s, m.id)
    ensures UniqueIds(Insert(m, s))
  {
    if s != [] && !MayPrecede(m, s[0]) {
      InsertUnique(m, s[1..]);
      InsertHas(m, s[1..], s[0].id);
    }
  }

  lemma InsertHas(m: Message, s: seq<Message>, id: string)
    ensures Has(Insert(m, s), id) <==> m.id == id || Has(s, id)
  {
    HasIn(s, id);
    HasIn(Insert(m, s), id);
    forall x ensures x in Insert(m, s) <==> x == m || x in s { InsertMembers(m, s, x); }
  }

  lemma {:induction false} SortUnique(s: seq<Message>)
    requires UniqueIds(s)
    ensures UniqueIds(Sort(s))
  {
    if s != [] {
      SortUnique(s[1..]);
      SortHas(s[1..], s[0].id);
      InsertUnique(s[0], Sort(s[1..]));
    }
  }

  ghost predicate RealsThenEchoes(s: seq<Message>) {
    forall j, k :: 0 <= j < k < |s| ==>
      (IsEcho(s[j]) ==> IsEcho(s[k])) && (!IsEcho(s[j]) && !IsEcho(s[k]) ==> s[j].order <= s[k].order)
  }

  /** One message for each id, real ones by order, echoes last. */
  lemma MergeOrdered(held: seq<Message>, incoming: seq<Message>)
    ensures UniqueIds(Merge(held, incoming)) && Sorted(Merge(held, incoming))
    ensures RealsThenEchoes(Merge(held, incoming))
  {
    EntriesUnique(held, incoming);
    var e := Entries(held, incoming);
    LengthenKeepsIds(e, held);
    SortUnique(LengthenAll(e, held));
    SortSorted(LengthenAll(e, held));
  }

  /** The first held message of an id that is no answered echo. */
  function FirstUnanswered(held: seq<Message>, incoming: seq<Message>, id: string): Option<Message> {
    if held == [] then None
    else
      var before, m := FirstUnanswered(held[..|held|-1], incoming, id), held[|held|-1];
      if before.Some? || m.id != id || Answered(m, incoming) then before else Some(m)
  }

  lemma {:induction false} StayingMembers(held: seq<Message>, incoming: seq<Message>, x: Message)
    ensures x in Staying(held, incoming) <==> !Has(incoming, x.id) && FirstUnanswered(held, incoming, x.id) == Some(x)
    ensures FirstUnanswered(held, incoming, x.id).Some? ==> FirstUnanswered(held, incoming, x.id).value.id == x.id
    ensures !Has(incoming, x.id) ==> (Has(Staying(held, incoming), x.id) <==> FirstUnanswered(held, incoming, x.id).Some?)
  {
    if held != [] {
      var before, m := Staying(held[..|held|-1], incoming), held[|held|-1];
      StayingMembers(held[..|held|-1], incoming, x);
      StayingMembers(held[..|held|-1], incoming, m);
      HasPush(before, m, x.id);
      hide Answered, Has;
    }
  }

  /** The message of an id the page shows after the merge: the answer's if it has one, never shortened while streaming. */
  function Expected(held: seq<Message>, incoming: seq<Message>, id: string): Option<Message> {
    match LastOf(incoming, id)
    case Some(m) => Some(Lengthened(m, held))
    case None =>
      match FirstUnanswered(held, incoming, id)
      case Some(m) => Some(Lengthened(m, held))
      case None => None
  }

  lemma EntryMembers(held: seq<Message>, incoming: seq<Message>, e: Message)
    ensures e in Entries(held, incoming)
      <==> (if LastOf(incoming, e.id).Some? then LastOf(incoming, e.id) else FirstUnanswered(held, incoming, e.id)) == Some(e)
  {
    PutAllMembers(incoming, e);
    StayingMembers(held, incoming, e);
    LastHasId(incoming, e.id);
  }

  lemma LengthenMembers(s: seq<Message>, held: seq<Message>, x: Message)
    ensures x in LengthenAll(s, held) <==> exists e :: e in s && x == Lengthened(e, held)
  {
    var t := LengthenAll(s, held);
    if x in t {
      var k :| 0 <= k < |t| && t[k] == x;
      assert s[k] in s;
    }
    if e :| e in s && x == Lengthened(e, held) {
      var k :| 0 <= k < |s| && s[k] == e;
      assert t[k] == x;
    }
  }

  /** The merge holds exactly the expected message of every id. */
  lemma MergeHolds(held: seq<Message>, incoming: seq<Message>, x: Message)
    ensures x in Merge(held, incoming) <==> Expected(held, incoming, x.id) == Some(x)
  {
    var es := Entries(held, incoming);
    SortMembers(LengthenAll(es, held), x);
    LengthenMembers(es, held, x);
    LastHasId(incoming, x.id);
    StayingMembers(held, incoming, x);
    forall e ensures Lengthened(e, held).id == e.id { LengthenedKeeps(e, held); }
    hide LengthenAll, Lengthened, LastOf, FirstUnanswered, Staying, PutAll, Sort;
    if x in Merge(held, incoming) {
      var e :| e in es && x == Lengthened(e, held);
      EntryMembers(held, incoming, e);
    }
    if Expected(held, incoming, x.id) == Some(x) {
      var e := if LastOf(incoming, x.id).Some? then LastOf(incoming, x.id).value else FirstUnanswered(held, incoming, x.id).value;
      EntryMembers(held, incoming, e);
      assert e in es && x == Lengthened(e, held);
    }
  }

  lemma {:induction false} HeldUnlessAnswered(held: seq<Message>, incoming: seq<Message>, h: Message)
    requires UniqueIds(held) && h in held
    ensures FirstUnanswered(held, incoming, h.id) == if Answered(h, incoming) then None else Some(h)
  {
    var before, last := held[..|held|-1], held[|held|-1];
    assert held == before + [last];
    hide Answered;
    if h == last {
      NoneUnanswered(before, incoming, h.id);
    } else {
      assert h in before;
      HeldUnlessAnswered(before, incoming, h);
    }
  }

  /** A held message the answer does not have stays, unless it is the echo of one that has arrived. */
  lemma HeldStaysExactlyWhen(held: seq<Message>, incoming: seq<Message>, h: Message)
    requires UniqueIds(held) && h in held && !Has(incoming, h.id)
    ensures Has(Merge(held, incoming), h.id) <==>
      !(IsEcho(h) && h.clientId.Some? && exists m :: m in incoming && m.clientId == h.clientId)
  {
    HeldUnlessAnswered(held, incoming, h);
    LastHasId(incoming, h.id);
    LengthenedKeeps(h, held);
    var shown := Lengthened(h, held);
    MergeHolds(held, incoming, shown);
    HasIn(Merge(held, incoming), h.id);
    forall m ensures m in incoming <==> exists k :: 0 <= k < |incoming| && incoming[k] == m { }
    hide Merge, FirstUnanswered, Lengthened, LastOf;
    if Answered(h, incoming) {
      forall x | x in Merge(held, incoming) ensures x.id != h.id { MergeHolds(held, incoming, x); }
    }
  }

  /** Text streamed into a message is not lost to an older answer: streaming on both sides keeps the longer content. */
  lemma NeverShortens(held: seq<Message>, incoming: seq<Message>, h: Message, m: Message, x: Message)
    requires UniqueIds(held) && h in held && h.status.Streaming?
    requires LastOf(incoming, h.id) == Some(m) && m.status.Streaming?
    requires x in Merge(held, incoming) && x.id == h.id
    ensures x == m.(content := if |m.content| < |h.content| then h.content else m.content)
  {
    MergeHolds(held, incoming, x);
    LastHasId(incoming, h.id);
    LengthenedByOne(m, held, h);
  }

  lemma {:induction false} LengthenedByOne(m: Message, held: seq<Message>, h: Message)
    requires UniqueIds(held) && h in held && h.id == m.id
    ensures Lengthened(m, held) == Longer(m, h)
  {
    var before, last := held[..|held|-1], held[|held|-1];
    assert held == before + [last];
    if last == h {
      NotLengthened(m, before);
    } else {
      assert h in before;
      LengthenedByOne(m, before, h);
    }
  }

  lemma {:induction false} NotLengthened(m: Message, held: seq<Message>)
    requires forall k :: 0 <= k < |held| ==> held[k].id != m.id
    ensures Lengthened(m, held) == m
  {
    if held != [] { NotLengthened(m, held[..|held|-1]); }
  }

  // ---------------------------------------------------------------------------------------------
  // Merging twice
  // ---------------------------------------------------------------------------------------------

  /** The messages the answer does not have. */
  function Others(s: seq<Message>, incoming: seq<Message>): seq<Message> {
    if s == [] then [] else if Has(incoming, s[0].id) then Others(s[1..], incoming) else [s[0]] + Others(s[1..], incoming)
  }

  lemma {:induction false} OthersAppend(s: seq<Message>, t: seq<Message>, incoming: seq<Message>)
    ensures Others(s + t, incoming) == Others(s, incoming) + Others(t, incoming)
  {
    if s == [] {
      assert s + t == t;
    } else {
      assert (s + t)[0] == s[0] && (s + t)[1..] == s[1..] + t;
      OthersAppend(s[1..], t, incoming);
    }
  }

  lemma {:induction false} OthersMembers(s: seq<Message>, incoming: seq<Message>)
    ensures forall x :: x in Others(s, incoming) <==> x in s && !Has(incoming, x.id)
  {
    if s != [] {
      OthersMembers(s[1..], incoming);
      assert s == [s[0]] + s[1..];
    }
  }

  lemma {:induction false} OthersInsert(m: Message, s: seq<Message>, incoming: seq<Message>)
    requires Sorted(s)
    ensures Others(Insert(m, s), incoming)
      == if Has(incoming, m.id) then Others(s, incoming) else Insert(m, Others(s, incoming))
  {
    if s == [] || MayPrecede(m, s[0]) {
      assert Insert(m, s)[1..] == s;
      OthersMembers(s, incoming);
      forall x | x in Others(s, incoming) ensures MayPrecede(m, x) {
        var k :| 0 <= k < |s| && s[k] == x;
        assert k == 0 || MayPrecede(s[0], s[k]);
      }
    } else {
      OthersInsert(m, s[1..], incoming);
      assert Insert(m, s)[0] == s[0] && Insert(m, s)[1..] == Insert(m, s[1..]);
      var rest := Others(s[1..], incoming);
      assert ([s[0]] + rest)[1..] == rest;
    }
  }

  lemma {:induction false} OthersSort(s: seq<Message>, incoming: seq<Message>)
    ensures Others(Sort(s), incoming) == Sort(Others(s, incoming))
  {
    if s != [] {
      OthersSort(s[1..], incoming);
      SortSorted(s[1..]);
      OthersInsert(s[0], Sort(s[1..]), incoming);
    }
  }

  lemma {:induction false} SortOfSorted(s: seq<Message>)
    requires Sorted(s)
    ensures Sort(s) == s
  {
    if s != [] {
      SortOfSorted(s[1..]);
      forall x | x in s[1..] ensures MayPrecede(s[0], x) {
        var k :| 0 <= k < |s[1..]| && s[1..][k] == x;
        assert s[k+1] == x;
      }
    }
  }

  /** Sorting the tail first changes nothing: the sort is stable. */
  lemma {:induction false} SortTail(s: seq<Message>, t: seq<Message>)
    ensures Sort(s + Sort(t)) == Sort(s + t)
  {
    if s == [] {
      SortSorted(t);
      SortOfSorted(Sort(t));
      assert s + t == t && s + Sort(t) == Sort(t);
    } else {
      SortTail(s[1..], t);
      assert (s + t)[0] == s[0] && (s + t)[1..] == s[1..] + t;
      assert (s + Sort(t))[0] == s[0] && (s + Sort(t))[1..] == s[1..] + Sort(t);
    }
  }

  lemma {:induction false} StayingIsOthers(held: seq<Message>, incoming: seq<Message>)
    requires UniqueIds(held) && forall m :: m in held && !Has(incoming, m.id) ==> !Answered(m, incoming)
    ensures Staying(held, incoming) == Others(held, incoming)
  {
    if held != [] {
      var before, m := held[..|held|-1], held[|held|-1];
      assert held == before + [m];
      StayingIsOthers(before, incoming);
      OthersAppend(before, [m], incoming);
      OthersMembers(before, incoming);
      HasIn(Others(before, incoming), m.id);
      assert m in held;
    }
  }

  lemma {:induction false} LengthenedOnce(m: Message, held: seq<Message>)
    ensures Lengthened(m, held) == m || (m.status.Streaming? && |m.content| < |Lengthened(m, held).content|)
  {
    if held != [] { LengthenedOnce(m, held[..|held|-1]); }
  }

  /** Lengthening by the merge of what lengthened it gives the same again. */
  lemma LengthenedAgain(m: Message, held: seq<Message>, merged: seq<Message>)
    requires UniqueIds(merged) && Lengthened(m, held) in merged
    ensures Lengthened(m, merged) == Lengthened(m, held)
  {
    LengthenedKeeps(m, held);
    LengthenedOnce(m, held);
    LengthenedByOne(m, merged, Lengthened(m, held));
  }

  lemma LengthenAppend(s: seq<Message>, t: seq<Message>, held: seq<Message>)
    ensures LengthenAll(s + t, held) == LengthenAll(s, held) + LengthenAll(t, held)
  { }

  lemma {:induction false} NoOthers(s: seq<Message>, incoming: seq<Message>)
    requires forall m :: m in s ==> Has(incoming, m.id)
    ensures Others(s, incoming) == []
  {
    if s != [] {
      assert s[0] in s;
      NoOthers(s[1..], incoming);
    }
  }

  lemma {:induction false} AllOthers(s: seq<Message>, incoming: seq<Message>)
    requires forall m :: m in s ==> !Has(incoming, m.id)
    ensures Others(s, incoming) == s
  {
    if s != [] {
      assert s[0] in s;
      AllOthers(s[1..], incoming);
    }
  }

  /** The two parts of a merge before the sort: the answer's messages and the held ones that stay. */
  lemma MergeParts(held: seq<Message>, incoming: seq<Message>) returns (p: seq<Message>, s: seq<Message>)
    ensures p == LengthenAll(PutAll(incoming), held) && s == LengthenAll(Staying(held, incoming), held)
    ensures Merge(held, incoming) == Sort(p + s)
    ensures Others(p, incoming) == [] && Others(s, incoming) == s
    ensures forall m :: m in s ==> !Answered(m, incoming)
  {
    p, s := LengthenAll(PutAll(incoming), held), LengthenAll(Staying(held, incoming), held);
    LengthenAppend(PutAll(incoming), Staying(held, incoming), held);
    StayingHolds(held, incoming);
    LengthenKeepsIds(PutAll(incoming), held);
    forall m | m in p ensures Has(incoming, m.id) {
      HasIn(p, m.id);
      PutAllHas(incoming, m.id);
    }
    forall m | m in s ensures !Has(incoming, m.id) && !Answered(m, incoming) {
      LengthenMembers(Staying(held, incoming), held, m);
      var e :| e in Staying(held, incoming) && m == Lengthened(e, held);
      LengthenedKeeps(e, held);
    }
    NoOthers(p, incoming);
    AllOthers(s, incoming);
  }

  /** What stays of a merge when the same answer comes again. */
  lemma StaysAgain(held: seq<Message>, incoming: seq<Message>, p: seq<Message>, s: seq<Message>)
    requires Merge(held, incoming) == Sort(p + s) && Others(p, incoming) == [] && Others(s, incoming) == s
    requires forall m :: m in s ==> !Answered(m, incoming)
    ensures Staying(Merge(held, incoming), incoming) == Sort(s)
  {
    var merged := Merge(held, incoming);
    MergeOrdered(held, incoming);
    OthersSort(p + s, incoming);
    OthersAppend(p, s, incoming);
    OthersMembers(merged, incoming);
    assert [] + s == s;
    assert Others(merged, incoming) == Sort(s);
    hide Merge, Others, UniqueIds, Answered, Has, Sorted;
    forall m | m in merged && !Has(incoming, m.id) ensures !Answered(m, incoming) { SortMembers(s, m); }
    StayingIsOthers(merged, incoming);
  }

  /** Merging the same answer again changes nothing. */
  lemma MergeTwice(held: seq<Message>, incoming: seq<Message>)
    ensures Merge(Merge(held, incoming), incoming) == Merge(held, incoming)
  {
    var p, s := MergeParts(held, incoming);
    var merged, a := Merge(held, incoming), PutAll(incoming);
    MergeOrdered(held, incoming);
    StaysAgain(held, incoming, p, s);
    LengthenAppend(a, Sort(s), merged);
    forall m | m in a ensures Lengthened(m, merged) == Lengthened(m, held) {
      LengthenMembers(a, held, Lengthened(m, held));
      SortMembers(p + s, Lengthened(m, held));
      LengthenedAgain(m, held, merged);
    }
    forall m | m in Sort(s) ensures Lengthened(m, merged) == m {
      SortMembers(s, m);
      SortMembers(p + s, m);
      LengthenedByOne(m, merged, m);
    }
    LengthenSame(a, held, merged);
    LengthenNone(Sort(s), merged);
    SortTail(p, s);
  }

  lemma LengthenSame(s: seq<Message>, held: seq<Message>, other: seq<Message>)
    requires forall m :: m in s ==> Lengthened(m, other) == Lengthened(m, held)
    ensures LengthenAll(s, other) == LengthenAll(s, held)
  {
    assert forall k :: 0 <= k < |s| ==> s[k] in s;
  }

  lemma LengthenNone(s: seq<Message>, held: seq<Message>)
    requires forall m :: m in s ==> Lengthened(m, held) == m
    ensures LengthenAll(s, held) == s
  {
    assert forall k :: 0 <= k < |s| ==> s[k] in s;
  }

  // ---------------------------------------------------------------------------------------------
  // The echoes keep their order
  // ---------------------------------------------------------------------------------------------

  function Echoes(s: seq<Message>): seq<string> {
    if s == [] then [] else EchoId(s[0]) + Echoes(s[1..])
  }

  /** The echoes of sends that the answer does not show yet, in the order of the sends. */
  ghost function Unarrived(held: seq<Message>, incoming: seq<Message>): seq<string> {
    if held == [] then []
    else
      var m := held[|held|-1];
      Unarrived(held[..|held|-1], incoming)
      + (if IsEcho(m) && !(m.clientId.Some? && exists x :: x in incoming && x.clientId == m.clientId) then [m.id] else [])
  }

  function EchoId(m: Message): seq<string> { if IsEcho(m) then [m.id] else [] }

  lemma EchoesStep(s: seq<Message>)
    requires s != []
    ensures Echoes(s) == EchoId(s[0]) + Echoes(s[1..])
  { }

  lemma {:induction false} EchoesInsert(m: Message, s: seq<Message>)
    ensures Echoes(Insert(m, s)) == EchoId(m) + Echoes(s)
    decreases |s|
  {
    var t := Insert(m, s);
    if s != [] && !MayPrecede(m, s[0]) {
      EchoesInsert(m, s[1..]);
      assert t[0] == s[0] && t[1..] == Insert(m, s[1..]);
      assert EchoId(m) == [] || EchoId(s[0]) == [];
      EchoesStep(t);
      EchoesStep(s);
      hide *;
      assert EchoId(s[0]) + (EchoId(m) + Echoes(s[1..])) == EchoId(m) + (EchoId(s[0]) + Echoes(s[1..]));
    } else {
      assert t[0] == m && t[1..] == s;
      EchoesStep(t);
      hide *;
    }
  }

  lemma {:induction false} EchoesSort(s: seq<Message>)
    ensures Echoes(Sort(s)) == Echoes(s)
    decreases |s|
  {
    if s != [] {
      EchoesSort(s[1..]);
      EchoesInsert(s[0], Sort(s[1..]));
      hide Insert, IsEcho;
    }
  }

  lemma {:induction false} EchoesAppend(s: seq<Message>, t: seq<Message>)
    ensures Echoes(s + t) == Echoes(s) + Echoes(t)
    decreases |s|
  {
    if s == [] {
      assert s + t == t;
    } else {
      assert (s + t)[1..] == s[1..] + t && (s + t)[0] == s[0];
      EchoesAppend(s[1..], t);
      hide IsEcho;
    }
  }

  lemma {:induction false} EchoesSame(s: seq<Message>, t: seq<Message>)
    requires |s| == |t| && forall k :: 0 <= k < |s| ==> s[k].id == t[k].id
    ensures Echoes(s) == Echoes(t)
    decreases |s|
  {
    if s != [] { EchoesSame(s[1..], t[1..]); }
  }

  lemma {:induction false} NoEchoes(s: seq<Message>)
    requires forall m :: m in s ==> !IsEcho(m)
    ensures Echoes(s) == []
    decreases |s|
  {
    if s != [] { NoEchoes(s[1..]); }
  }

  lemma {:induction false} StayingEchoes(held: seq<Message>, incoming: seq<Message>)
    requires UniqueIds(held) && forall m :: m in incoming ==> !IsEcho(m)
    ensures Echoes(Staying(held, incoming)) == Unarrived(held, incoming)
    decreases |held|
  {
    if held != [] {
      var before, m := held[..|held|-1], held[|held|-1];
      StayingEchoes(before, incoming);
      StayingHolds(before, incoming);
      EchoesAppend(Staying(before, incoming), [m]);
      assert Echoes([m]) == EchoId(m) by { assert [m][1..] == []; }
      LastStays(held, incoming);
      hide Echoes, Staying, UniqueIds;
    }
  }

  /** Whether the last held message stays: an echo does exactly if its send has not arrived. */
  lemma LastStays(held: seq<Message>, incoming: seq<Message>)
    requires held != [] && UniqueIds(held) && forall m :: m in incoming ==> !IsEcho(m)
    ensures var before, after, m := Staying(held[..|held|-1], incoming), Staying(held, incoming), held[|held|-1];
      if !IsEcho(m) then after == before || after == before + [m]
      else if m.clientId.Some? && exists x :: x in incoming && x.clientId == m.clientId then after == before
      else after == before + [m]
  {
    var rest, m := held[..|held|-1], held[|held|-1];
    StayingHolds(rest, incoming);
    HasIn(incoming, m.id);
    HasIn(Staying(rest, incoming), m.id);
    forall x | x in Staying(rest, incoming) ensures x.id != m.id {
      var k :| 0 <= k < |rest| && rest[k] == x;
      assert held[k].id != m.id;
    }
    forall x ensures x in incoming <==> exists k :: 0 <= k < |incoming| && incoming[k] == x { }
  }

  /** The echoes of a page stand after its messages in the order of their sends, whatever has arrived meanwhile. */
  lemma EchoesKeepOrder(held: seq<Message>, incoming: seq<Message>)
    requires UniqueIds(held) && forall m :: m in incoming ==> !IsEcho(m)
    ensures Echoes(Merge(held, incoming)) == Unarrived(held, incoming)
  {
    var es := Entries(held, incoming);
    EchoesSort(LengthenAll(es, held));
    LengthenKeepsIds(es, held);
    EchoesSame(LengthenAll(es, held), es);
    EchoesAppend(PutAll(incoming), Staying(held, incoming));
    forall m | m in PutAll(incoming) ensures !IsEcho(m) {
      PutAllMembers(incoming, m);
      LastHasId(incoming, m.id);
    }
    NoEchoes(PutAll(incoming));
    StayingEchoes(held, incoming);
    hide *;
  }

  // ---------------------------------------------------------------------------------------------
  // Streamed text
  // ---------------------------------------------------------------------------------------------

  function IndexOfId(s: seq<Message>, id: string): (i: nat)
    ensures i <= |s| && (i < |s| ==> s[i].id == id) && forall k :: 0 <= k < i ==> s[k].id != id
  {
    if s == [] || s[0].id == id then 0 else 1 + IndexOfId(s[1..], id)
  }

  /** The text added to the message of this id; nothing when there is none. */
  function ApplyDelta(messages: seq<Message>, id: string, text: string): Option<seq<Message>> {
    var i := IndexOfId(messages, id);
    if i == |messages| then None
    else Some(messages[i := messages[i].(content := messages[i].content + text)])
  }

  /** A delta goes to the message of its id and to no other; without such a message there is nothing to show. */
  lemma DeltaGoesToItsMessage(messages: seq<Message>, id: string, text: string)
    requires UniqueIds(messages)
    ensures ApplyDelta(messages, id, text).Some? <==> Has(messages, id)
    ensures Has(messages, id) ==>
      var next := ApplyDelta(messages, id, text).value;
      |next| == |messages| && forall k :: 0 <= k < |messages| ==>
        next[k] == if messages[k].id == id then messages[k].(content := messages[k].content + text) else messages[k]
  {
  }

  /** A delta is not lost to an answer that was read before it: the streamed text survives the merge. */
  lemma DeltaSurvives(held: seq<Message>, h: Message, text: string, incoming: seq<Message>, m: Message, x: Message)
    requires UniqueIds(held) && h in held && h.status.Streaming?
    requires LastOf(incoming, h.id) == Some(m) && m.status.Streaming? && m.content <= h.content
    ensures ApplyDelta(held, h.id, text).Some?
    ensures x in Merge(ApplyDelta(held, h.id, text).value, incoming) && x.id == h.id ==> x.content == h.content + text
  {
    var i := IndexOfId(held, h.id);
    var k :| 0 <= k < |held| && held[k] == h;
    assert i == k;
    var next := ApplyDelta(held, h.id, text).value;
    var grown := h.(content := h.content + text);
    assert next[i] == grown && grown in next;
    assert UniqueIds(next);
    if x in Merge(next, incoming) && x.id == h.id {
      NeverShortens(next, incoming, grown, m, x);
    }
  }

  // ---------------------------------------------------------------------------------------------
  // Refetching
  // ---------------------------------------------------------------------------------------------

  function Reals(s: seq<Message>): seq<Message> {
    if s == [] then [] else if IsEcho(s[0]) then Reals(s[1..]) else [s[0]] + Reals(s[1..])
  }

  function OnlyInFlight(s: seq<Message>): seq<Message> {
    if s == [] then [] else if InFlight(s[0]) then [s[0]] + OnlyInFlight(s[1..]) else OnlyInFlight(s[1..])
  }

  function MinOrder(s: seq<Message>): int
    requires s != []
  {
    if |s| == 1 then s[0].order else var m := MinOrder(s[1..]); if s[0].order < m then s[0].order else m
  }

  function MaxOrder(s: seq<Message>): int
    requires s != []
  {
    if |s| == 1 then s[0].order else var m := MaxOrder(s[1..]); if s[0].order > m then s[0].order else m
  }

  /** One below the first real message in flight, else the last real message, else the beginning. */
  function RefetchAfter(messages: seq<Message>): int {
    var genuine := Reals(messages);
    var flying := OnlyInFlight(genuine);
    if flying != [] then MinOrder(flying) - 1 else if genuine != [] then MaxOrder(genuine) else 0
  }

  /** What the server answers after a cursor. */
  function After(s: seq<Message>, cursor: int): seq<Message> {
    if s == [] then [] else if s[0].order > cursor then [s[0]] + After(s[1..], cursor) else After(s[1..], cursor)
  }

  lemma {:induction false} RealsMembers(s: seq<Message>, x: Message)
    ensures x in Reals(s) <==> x in s && !IsEcho(x)
  {
    if s != [] {
      RealsMembers(s[1..], x);
      assert s == [s[0]] + s[1..];
    }
  }

  lemma {:induction false} FlightMembers(s: seq<Message>, x: Message)
    ensures x in OnlyInFlight(s) <==> x in s && InFlight(x)
  {
    if s != [] {
      FlightMembers(s[1..], x);
      assert s == [s[0]] + s[1..];
    }
  }

  lemma {:induction false} AfterMembers(s: seq<Message>, cursor: int, x: Message)
    ensures x in After(s, cursor) <==> x in s && x.order > cursor
  {
    if s != [] {
      AfterMembers(s[1..], cursor, x);
      assert s == [s[0]] + s[1..];
    }
  }

  lemma {:induction false} AfterUnique(s: seq<Message>, cursor: int)
    requires UniqueIds(s)
    ensures UniqueIds(After(s, cursor))
  {
    if s != [] {
      AfterUnique(s[1..], cursor);
      forall x ensures x in After(s[1..], cursor) ==> x in s[1..] { AfterMembers(s[1..], cursor, x); }
      HasIn(After(s[1..], cursor), s[0].id);
      HasIn(s[1..], s[0].id);
    }
  }

  lemma {:induction false} MinIsLeast(s: seq<Message>)
    requires s != []
    ensures exists m :: m in s && m.order == MinOrder(s)
    ensures forall m :: m in s ==> MinOrder(s) <= m.order
  {
    assert s == [s[0]] + s[1..] && s[0] in s;
    if |s| > 1 {
      MinIsLeast(s[1..]);
      var m :| m in s[1..] && m.order == MinOrder(s[1..]);
      assert m in s;
    }
  }

  lemma {:induction false} MaxIsGreatest(s: seq<Message>)
    requires s != []
    ensures exists m :: m in s && m.order == MaxOrder(s)
    ensures forall m :: m in s ==> m.order <= MaxOrder(s)
  {
    assert s == [s[0]] + s[1..] && s[0] in s;
    if |s| > 1 {
      MaxIsGreatest(s[1..]);
      var m :| m in s[1..] && m.order == MaxOrder(s[1..]);
      assert m in s;
    }
  }

  predicate IsFlying(m: Message) { !IsEcho(m) && InFlight(m) }

  /** The cursor is right below the first message in flight; with none in flight it is the last message's. */
  lemma CursorIsBelowFlight(messages: seq<Message>)
    ensures var cursor := RefetchAfter(messages);
      if exists m :: m in messages && IsFlying(m) then
        && (forall m :: m in messages && IsFlying(m) ==> cursor < m.order)
        && (exists m :: m in messages && IsFlying(m) && m.order == cursor + 1)
      else if exists m :: m in messages && !IsEcho(m) then
        && (forall m :: m in messages && !IsEcho(m) ==> m.order <= cursor)
        && (exists m :: m in messages && !IsEcho(m) && m.order == cursor)
      else cursor == 0
  {
    var genuine := Reals(messages);
    var flying := OnlyInFlight(genuine);
    forall x ensures x in genuine <==> x in messages && !IsEcho(x) { RealsMembers(messages, x); }
    forall x ensures x in flying <==> x in genuine && InFlight(x) { FlightMembers(genuine, x); }
    hide IsEcho, InFlight, Reals, OnlyInFlight;
    if flying != [] {
      MinIsLeast(flying);
      assert flying[0] in flying;
    } else if genuine != [] {
      MaxIsGreatest(genuine);
      assert genuine[0] in genuine;
    }
  }

  /** The server's messages: real, in order, numbered from 1 on. */
  ghost predicate IsServerList(server: seq<Message>) {
    && UniqueIds(server)
    && (forall s :: s in server ==> !IsEcho(s) && s.order > 0)
    && (forall j, k :: 0 <= j < k < |server| ==> server[j].order < server[k].order)
  }

  /** The held real messages are the first ones of the server, and those that are settled are as the server has them. */
  ghost predicate IsPrefixOf(held: seq<Message>, server: seq<Message>) {
    && UniqueIds(held)
    && (forall m :: m in held && !IsEcho(m) ==> Matches(m, server))
    && (forall m, s :: m in held && !IsEcho(m) && s in server && s.order <= m.order ==> Has(held, s.id))
  }

  ghost predicate Matches(m: Message, server: seq<Message>) {
    exists s :: s in server && s.id == m.id && s.order == m.order && (InFlight(m) || s == m)
  }

  /** What the cursor leaves out is held as the server has it. */
  lemma HeldBefore(held: seq<Message>, server: seq<Message>, s: Message)
    requires IsServerList(server) && IsPrefixOf(held, server) && s in server && s.order <= RefetchAfter(held)
    ensures s in held
  {
    var genuine := Reals(held);
    var flying := OnlyInFlight(genuine);
    forall x ensures x in genuine <==> x in held && !IsEcho(x) { RealsMembers(held, x); }
    forall x ensures x in flying <==> x in genuine && InFlight(x) { FlightMembers(genuine, x); }
    hide IsEcho, InFlight, Reals, OnlyInFlight, Has, UniqueIds;
    if flying != [] {
      MinIsLeast(flying);
      var m :| m in flying && m.order == MinOrder(flying);
      SettledIsHeld(held, server, s, m);
    } else {
      MaxIsGreatest(genuine);
      var m :| m in genuine && m.order == MaxOrder(genuine);
      SettledIsHeld(held, server, s, m);
    }
  }

  lemma SettledIsHeld(held: seq<Message>, server: seq<Message>, s: Message, m: Message)
    requires IsServerList(server) && IsPrefixOf(held, server) && s in server && m in held && !IsEcho(m) && s.order <= m.order
    requires forall h :: h in held && !IsEcho(h) && InFlight(h) ==> s.order < h.order
    ensures s in held
  {
    assert Has(held, s.id);
    HasIn(held, s.id);
    hide Has, InFlight, UniqueIds;
    var h :| h in held && h.id == s.id;
    assert !IsEcho(s);
    assert IsEcho(h) == IsEcho(s);
    hide IsEcho;
    assert Matches(h, server);
    var t :| t in server && t.id == h.id && t.order == h.order && (InFlight(h) || t == h);
  }

  lemma {:induction false} LastOfUnique(s: seq<Message>, m: Message)
    requires UniqueIds(s) && m in s
    ensures LastOf(s, m.id) == Some(m)
  {
    var before, last := s[..|s|-1], s[|s|-1];
    assert s == before + [last];
    if m != last {
      assert m in before;
      LastOfUnique(before, m);
    }
  }

  lemma {:induction false} FirstUnansweredUnique(held: seq<Message>, incoming: seq<Message>, m: Message)
    requires UniqueIds(held) && m in held && !IsEcho(m)
    ensures FirstUnanswered(held, incoming, m.id) == Some(m)
  {
    var before, last := held[..|held|-1], held[|held|-1];
    assert held == before + [last];
    if m == last {
      NoneUnanswered(before, incoming, m.id);
    } else {
      assert m in before;
      FirstUnansweredUnique(before, incoming, m);
    }
  }

  lemma {:induction false} NoneUnanswered(held: seq<Message>, incoming: seq<Message>, id: string)
    requires forall k :: 0 <= k < |held| ==> held[k].id != id
    ensures FirstUnanswered(held, incoming, id) == None
  {
    if held != [] { NoneUnanswered(held[..|held|-1], incoming, id); }
  }

  lemma {:induction false} FirstUnansweredIn(held: seq<Message>, incoming: seq<Message>, id: string)
    ensures var r := FirstUnanswered(held, incoming, id); r.Some? ==> r.value in held && r.value.id == id
  {
    if held != [] { FirstUnansweredIn(held[..|held|-1], incoming, id); }
  }

  /** Each message of the server is in the merge, as the page shows it. */
  lemma ServerIsMerged(held: seq<Message>, server: seq<Message>, s: Message)
    requires IsServerList(server) && IsPrefixOf(held, server) && s in server
    ensures Expected(held, After(server, RefetchAfter(held)), s.id) == Some(Lengthened(s, held))
  {
    var cursor := RefetchAfter(held);
    var answer := After(server, cursor);
    AfterMembers(server, cursor, s);
    AfterUnique(server, cursor);
    if s.order > cursor {
      LastOfUnique(answer, s);
    } else {
      HeldBefore(held, server, s);
      LastHasId(answer, s.id);
      if LastOf(answer, s.id).Some? {
        AfterMembers(server, cursor, LastOf(answer, s.id).value);
      }
      FirstUnansweredUnique(held, answer, s);
    }
  }

  /** Each real message of the merge is one of the server's. */
  lemma MergedIsServer(held: seq<Message>, server: seq<Message>, x: Message)
    requires IsServerList(server) && IsPrefixOf(held, server) && !IsEcho(x)
    requires Expected(held, After(server, RefetchAfter(held)), x.id) == Some(x)
    ensures exists s :: s in server && x == Lengthened(s, held)
  {
    var cursor := RefetchAfter(held);
    var answer := After(server, cursor);
    var last, first := LastOf(answer, x.id), FirstUnanswered(held, answer, x.id);
    LastHasId(answer, x.id);
    FirstUnansweredIn(held, answer, x.id);
    hide Lengthened, LastOf, FirstUnanswered, After, RefetchAfter, UniqueIds;
    if last.Some? {
      AfterMembers(server, cursor, last.value);
    } else {
      var m := first.value;
      assert IsEcho(m) == IsEcho(x);
      assert Matches(m, server);
      var s :| s in server && s.id == m.id && s.order == m.order && (InFlight(m) || s == m);
      ServerIsMerged(held, server, s);
      assert x == Lengthened(s, held);
    }
  }

  ghost predicate Rising(s: seq<Message>) { forall j, k :: 0 <= j < k < |s| ==> s[j].order < s[k].order }

  /** Two lists that rise and hold the same messages are the same. */
  lemma {:induction false} RisingUnique(s: seq<Message>, t: seq<Message>)
    requires Rising(s) && Rising(t) && forall x :: x in s <==> x in t
    ensures s == t
    decreases |s|
  {
    assert t != [] ==> t[0] in t;
    if s != [] {
      assert s[0] in t && t != [] && t[0] in s;
      assert s[0] == t[0];
      RestSame(s, t);
      RisingUnique(s[1..], t[1..]);
    }
  }

  lemma RestSame(s: seq<Message>, t: seq<Message>)
    requires Rising(s) && Rising(t) && s != [] && t != [] && s[0] == t[0] && forall x :: x in s <==> x in t
    ensures forall x :: x in s[1..] <==> x in t[1..]
  {
    forall x ensures x in s[1..] <==> x in t[1..] {
      TailMembers(s, x);
      TailMembers(t, x);
    }
  }

  lemma TailMembers(s: seq<Message>, x: Message)
    requires Rising(s) && s != []
    ensures x in s[1..] <==> x in s && x != s[0]
  {
    assert s == [s[0]] + s[1..];
    if x in s[1..] {
      var k :| 0 <= k < |s[1..]| && s[1..][k] == x;
      assert s[k+1] == x;
    }
  }

  lemma {:induction false} RealsSorted(s: seq<Message>)
    requires Sorted(s) && UniqueIds(s)
    ensures UniqueIds(Reals(s))
    ensures forall j, k :: 0 <= j < k < |Reals(s)| ==> Reals(s)[j].order <= Reals(s)[k].order
  {
    if s != [] {
      RealsSorted(s[1..]);
      var rest := Reals(s[1..]);
      forall k | 0 <= k < |rest| ensures s[0].id != rest[k].id && MayPrecede(s[0], rest[k]) && !IsEcho(rest[k]) {
        assert rest[k] in rest;
        RealsMembers(s[1..], rest[k]);
        HasIn(s[1..], rest[k].id);
        var i :| 0 <= i < |s[1..]| && s[1..][i] == rest[k];
        assert s[i+1] == rest[k];
      }
    }
  }

  lemma ShownServer(server: seq<Message>, held: seq<Message>)
    requires IsServerList(server)
    ensures Rising(LengthenAll(server, held)) && UniqueIds(LengthenAll(server, held))
    ensures forall x :: x in LengthenAll(server, held) ==> !IsEcho(x)
  {
    LengthenKeepsIds(server, held);
    var y := LengthenAll(server, held);
    forall k | 0 <= k < |server| ensures y[k].order == server[k].order && !IsEcho(y[k]) {
      LengthenedKeeps(server[k], held);
      assert server[k] in server;
    }
  }

  /**
   After the complete answer to a refetch is merged, the real messages are the server's, each streaming one with the
   longer of the two contents.
   */
  lemma RefetchGivesServer(held: seq<Message>, server: seq<Message>)
    requires IsServerList(server) && IsPrefixOf(held, server)
    ensures Reals(Merge(held, After(server, RefetchAfter(held)))) == LengthenAll(server, held)
  {
    var answer := After(server, RefetchAfter(held));
    var merged := Merge(held, answer);
    var x, y := Reals(merged), LengthenAll(server, held);
    MergeOrdered(held, answer);
    RealsSorted(merged);
    ShownServer(server, held);
    forall m ensures m in x <==> m in y {
      RealsMembers(merged, m);
      MergeHolds(held, answer, m);
      LengthenMembers(server, held, m);
      hide Merge, LengthenAll, Lengthened, Reals, Expected, IsEcho, UniqueIds, Rising, After, RefetchAfter;
      if m in x { MergedIsServer(held, server, m); }
      if m in y {
        var s :| s in server && m == Lengthened(s, held);
        ServerIsMerged(held, server, s);
        LengthenedKeeps(s, held);
      }
    }
    SameOrders(x, y);
    RisingUnique(x, y);
  }

  lemma SameOrders(x: seq<Message>, y: seq<Message>)
    requires UniqueIds(x) && Rising(y) && forall m :: m in x ==> m in y
    requires forall j, k :: 0 <= j < k < |x| ==> x[j].order <= x[k].order
    ensures Rising(x)
  {
    forall j, k | 0 <= j < k < |x| ensures x[j].order < x[k].order {
      assert x[j] in y && x[k] in y;
      var a :| 0 <= a < |y| && y[a] == x[j];
      var b :| 0 <= b < |y| && y[b] == x[k];
      assert x[j].id != x[k].id;
      assert a != b;
    }
  }

  /** The real messages are the server's own exactly when no message streaming on both sides is held longer than the answer has it. */
  lemma RefetchIsServerExactlyWhen(held: seq<Message>, server: seq<Message>)
    requires IsServerList(server) && IsPrefixOf(held, server)
    ensures Reals(Merge(held, After(server, RefetchAfter(held)))) == server <==> NoneAhead(held, server)
  {
    RefetchGivesServer(held, server);
    hide Reals, Merge, After, RefetchAfter, LengthenAll, Lengthened, UniqueIds;
    if NoneAhead(held, server) {
      forall s | s in server ensures Lengthened(s, held) == s { NotAhead(held, server, s); }
      LengthenNone(server, held);
    }
    if LengthenAll(server, held) == server { SameIsNotAhead(held, server); }
  }

  lemma SameIsNotAhead(held: seq<Message>, server: seq<Message>)
    requires UniqueIds(held) && LengthenAll(server, held) == server
    ensures NoneAhead(held, server)
  {
    forall h, s | h in held && s in server && h.id == s.id && h.status.Streaming? && s.status.Streaming?
      ensures |h.content| <= |s.content|
    {
      var k :| 0 <= k < |server| && server[k] == s;
      assert LengthenAll(server, held)[k] == Lengthened(s, held);
      LengthenedByOne(s, held, h);
    }
  }

  ghost predicate NoneAhead(held: seq<Message>, server: seq<Message>) {
    forall h, s :: h in held && s in server && h.id == s.id && h.status.Streaming? && s.status.Streaming? ==> |h.content| <= |s.content|
  }

  lemma NotAhead(held: seq<Message>, server: seq<Message>, s: Message)
    requires UniqueIds(held) && NoneAhead(held, server) && s in server
    ensures Lengthened(s, held) == s
  {
    if h :| h in held && h.id == s.id {
      LengthenedByOne(s, held, h);
    } else {
      forall k | 0 <= k < |held| ensures held[k].id != s.id { assert held[k] in held; }
      NotLengthened(s, held);
    }
  }

  /** One message that is held with more text than the server's answer has yet: the merge keeps the longer text. */
  lemma HeldAheadStays()
    ensures var held := [Message("m", 1, None, Streaming, "ab", "")];
      var server := [Message("m", 1, None, Streaming, "a", "")];
      && IsServerList(server) && IsPrefixOf(held, server) && !NoneAhead(held, server)
      && Reals(Merge(held, After(server, RefetchAfter(held)))) == held != server
  {
    var h, s := Message("m", 1, None, Streaming, "ab", ""), Message("m", 1, None, Streaming, "a", "");
    var held, server := [h], [s];
    assert !IsEcho(h) && !IsEcho(s);
    assert s in server && h in held;
    assert Matches(h, server);
    assert IsPrefixOf(held, server) by { assert held[0].id == s.id; }
    RefetchGivesServer(held, server);
    LengthenedByOne(s, held, h);
    assert LengthenAll(server, held) == [Longer(s, h)];
    hide Reals, Merge, After, RefetchAfter;
  }
}
