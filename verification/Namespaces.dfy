/**
  Namespaces. A field list is a stream of events: put a member here, or open a namespace that
  swallows everything after it. `Nest` is the tree such a stream means, with an explicit
  container per namespace; `EventsText` is the stream laid out flat, as the encoder writes it.
 */
module Namespaces {
  import opened Utf8
  import opened Document
  import T = JsonText
  import P = JsonTextProperties

  datatype Event = Put(key: Bytes, value: Doc) | Open(key: Bytes)

  /** The members a stream of events means. */
  function Nest(evs: seq<Event>): seq<Member> {
    if evs == [] then []
    else match evs[0]
      case Put(k, d) => [Member(k, d)] + Nest(evs[1..])
      case Open(k) => [Member(k, Object(Nest(evs[1..])))]
  }

  /** How many namespaces a stream leaves open. */
  function Opens(evs: seq<Event>): nat {
    if evs == [] then 0 else (if evs[0].Open? then 1 else 0) + Opens(evs[1..])
  }

  /** Whether the next item needs no separator after `evs`. */
  predicate AtStartAfter(evs: seq<Event>, first: bool) {
    if evs == [] then first else evs[|evs| - 1].Open?
  }

  function EventText(e: Event, spaced: bool, first: bool): Bytes {
    Before(first, spaced) + KeyText(e.key, spaced)
    + match e case Put(_, d) => Text(d, spaced) case Open(_) => [T.LBRACE]
  }

  function EventsText(evs: seq<Event>, spaced: bool, first: bool): Bytes {
    if evs == [] then []
    else EventText(evs[0], spaced, first) + EventsText(evs[1..], spaced, evs[0].Open?)
  }

  function Braces(n: nat): Bytes {
    if n == 0 then [] else Braces(n - 1) + [T.RBRACE]
  }

  lemma {:induction false} EventsTextConcat(a: seq<Event>, b: seq<Event>, spaced: bool, first: bool)
    ensures EventsText(a + b, spaced, first)
         == EventsText(a, spaced, first) + EventsText(b, spaced, AtStartAfter(a, first))
    ensures Opens(a + b) == Opens(a) + Opens(b)
    decreases |a|
  {
    hide EventText;
    if a == [] {
      assert a + b == b;
    } else {
      assert (a + b)[1..] == a[1..] + b;
      EventsTextConcat(a[1..], b, spaced, a[0].Open?);
      assert AtStartAfter(a, first) == AtStartAfter(a[1..], a[0].Open?);
    }
  }

  lemma {:induction false} MembersTextConcat(a: seq<Member>, b: seq<Member>, spaced: bool, first: bool)
    ensures MembersText(a + b, spaced, first)
         == MembersText(a, spaced, first) + MembersText(b, spaced, first && a == [])
    decreases |a|
  {
    hide KeyText, Text;
    if a == [] {
      assert a + b == b;
    } else {
      assert (a + b)[1..] == a[1..] + b;
      MembersTextConcat(a[1..], b, spaced, false);
    }
  }

  /** One counter of open namespaces is enough: the flat layout closed by that many braces is
      the layout of the tree with its explicit containers. */
  lemma {:induction false} FlatLayoutIsTreeLayout(evs: seq<Event>, spaced: bool, first: bool)
    ensures MembersText(Nest(evs), spaced, first) == EventsText(evs, spaced, first) + Braces(Opens(evs))
    decreases |evs|
  {
    if evs != [] {
      match evs[0]
      case Put(k, d) => PutLayout(evs, spaced, first);
      case Open(k) => OpenLayout(evs, spaced, first);
    }
  }

  lemma {:induction false} PutLayout(evs: seq<Event>, spaced: bool, first: bool)
    requires evs != [] && evs[0].Put?
    ensures MembersText(Nest(evs), spaced, first) == EventsText(evs, spaced, first) + Braces(Opens(evs))
    decreases |evs|, 0
  {
    hide KeyText, Text, Braces, MembersText, EventsText;
    var head := Before(first, spaced) + KeyText(evs[0].key, spaced) + Text(evs[0].value, spaced);
    var rest, close := EventsText(evs[1..], spaced, false), Braces(Opens(evs[1..]));
    FlatLayoutIsTreeLayout(evs[1..], spaced, false);
    OneEvent(evs, spaced, first);
    FirstMember(Nest(evs), spaced, first);
    assert Nest(evs)[1..] == Nest(evs[1..]);
    assert head == Before(first, spaced) + (KeyText(evs[0].key, spaced) + Text(evs[0].value, spaced));
    assert head + (rest + close) == head + rest + close;
  }

  lemma {:induction false} OpenLayout(evs: seq<Event>, spaced: bool, first: bool)
    requires evs != [] && evs[0].Open?
    ensures MembersText(Nest(evs), spaced, first) == EventsText(evs, spaced, first) + Braces(Opens(evs))
    decreases |evs|, 0
  {
    hide KeyText, MembersText, EventsText, Braces;
    var rest := evs[1..];
    var head := Before(first, spaced) + KeyText(evs[0].key, spaced);
    var inner := EventsText(rest, spaced, true) + Braces(Opens(rest));
    FlatLayoutIsTreeLayout(rest, spaced, true);
    OneMember(Member(evs[0].key, Object(Nest(rest))), spaced, first);
    OneEvent(evs, spaced, first);
    assert Braces(Opens(evs)) == Braces(Opens(rest)) + [T.RBRACE] by { OneBrace(Opens(rest)); }
    assert head + ([T.LBRACE] + inner + [T.RBRACE])
        == head + [T.LBRACE] + EventsText(rest, spaced, true) + (Braces(Opens(rest)) + [T.RBRACE]);
  }

  lemma OneMember(m: Member, spaced: bool, first: bool)
    ensures MembersText([m], spaced, first) == Before(first, spaced) + KeyText(m.key, spaced) + Text(m.value, spaced)
  {
    hide KeyText, Text;
    assert [m][1..] == [];
  }

  lemma OneEvent(evs: seq<Event>, spaced: bool, first: bool)
    requires evs != []
    ensures EventsText(evs, spaced, first) == EventText(evs[0], spaced, first) + EventsText(evs[1..], spaced, evs[0].Open?)
  {
  }

  lemma OneBrace(n: nat)
    ensures Braces(n + 1) == Braces(n) + [T.RBRACE]
  {
  }

  /** The stream a nested tree came from, given how many namespaces were left open: at each
      level the last member is the namespace. */
  function Unnest(ms: seq<Member>, opens: nat): seq<Event> {
    if ms == [] then []
    else if |ms| == 1 && opens > 0 && ms[0].value.Object? then [Open(ms[0].key)] + Unnest(ms[0].value.members, opens - 1)
    else [Put(ms[0].key, ms[0].value)] + Unnest(ms[1..], opens)
  }

  /** Nesting loses nothing: which fields there were, in what order, and under which of the
      namespaces opened before them can all be read off the tree. */
  lemma {:induction false} NestLosesNothing(evs: seq<Event>)
    ensures Unnest(Nest(evs), Opens(evs)) == evs
    decreases |evs|
  {
    if evs != [] {
      NestLosesNothing(evs[1..]);
      assert evs == [evs[0]] + evs[1..];
      match evs[0]
      case Put(k, d) =>
        assert Nest(evs)[1..] == Nest(evs[1..]);
        if evs[1..] != [] {
          assert Nest(evs[1..]) != [];
        } else {
          assert Opens(evs) == 0;
        }
      case Open(k) =>
    }
  }

  /** A stream that opens no namespace. */
  predicate OnlyPuts(evs: seq<Event>) {
    forall i | 0 <= i < |evs| :: evs[i].Put?
  }

  lemma {:induction false} NestOfPuts(a: seq<Event>, b: seq<Event>)
    requires OnlyPuts(a)
    ensures Nest(a + b) == Nest(a) + Nest(b)
    decreases |a|
  {
    if a == [] {
      assert a + b == b;
    } else {
      assert (a + b)[1..] == a[1..] + b;
      NestOfPuts(a[1..], b);
    }
  }

  lemma OneNested(key: Bytes, d: Doc)
    ensures Nest([Put(key, d)] + []) == [Member(key, d)]
  {
    assert ([Put(key, d)] + [])[1..] == [];
  }

  // ------------------------------------------------------- the last-byte rule

  /** What `addElementSeparator` tests: nothing written yet, or an opening byte last. */
  predicate AtStart(bs: Bytes) {
    bs == [] || P.OpensItem(bs[|bs| - 1])
  }

  lemma AtStartAfterText(bs: Bytes, d: Doc, spaced: bool)
    ensures !AtStart(bs + Text(d, spaced))
  {
    hide Text;
    TextEnd(d, spaced);
  }

  /** The last byte tells whether the stream has just opened a namespace. */
  lemma AtStartAfterEvents(bs: Bytes, evs: seq<Event>, spaced: bool)
    ensures AtStart(bs + EventsText(evs, spaced, AtStart(bs))) == AtStartAfter(evs, AtStart(bs))
  {
    hide EventText, EventsText, AtStart;
    if evs == [] {
      assert bs + EventsText(evs, spaced, AtStart(bs)) == bs by { NoEventsText(spaced, AtStart(bs)); }
    } else {
      var n := |evs| - 1;
      var last := evs[n];
      assert evs == evs[..n] + [last];
      var f := AtStartAfter(evs[..n], AtStart(bs));
      EventsTextConcat(evs[..n], [last], spaced, AtStart(bs));
      OneEvent([last], spaced, f);
      NoEventsText(spaced, last.Open?);
      assert [last][1..] == [] && EventText(last, spaced, f) + [] == EventText(last, spaced, f);
      AtStartAfterEvent(bs + EventsText(evs[..n], spaced, AtStart(bs)), last, spaced, f);
      assert bs + EventsText(evs, spaced, AtStart(bs))
          == bs + EventsText(evs[..n], spaced, AtStart(bs)) + EventText(last, spaced, f);
    }
  }

  lemma NoEventsText(spaced: bool, first: bool)
    ensures EventsText([], spaced, first) == []
  {
  }

  lemma AtStartAfterEvent(bs: Bytes, e: Event, spaced: bool, first: bool)
    ensures AtStart(bs + EventText(e, spaced, first)) == e.Open?
  {
    hide Text, KeyText;
    if e.Put? {
      TextEnd(e.value, spaced);
    }
  }

  /** Appending the layout of `b`, with its separator chosen by the last byte, continues the
      layout of `a`. */
  lemma LayoutContinues(bs: Bytes, a: seq<Event>, b: seq<Event>, spaced: bool)
    ensures var mid := bs + EventsText(a, spaced, AtStart(bs));
            mid + EventsText(b, spaced, AtStart(mid)) == bs + EventsText(a + b, spaced, AtStart(bs))
    ensures Opens(a + b) == Opens(a) + Opens(b)
  {
    hide EventsText, Opens, AtStart;
    AtStartAfterEvents(bs, a, spaced);
    EventsTextConcat(a, b, spaced, AtStart(bs));
  }

  lemma {:induction false} ElemsTextConcat(a: seq<Doc>, b: seq<Doc>, spaced: bool, first: bool)
    ensures ElemsText(a + b, spaced, first)
         == ElemsText(a, spaced, first) + ElemsText(b, spaced, first && a == [])
    decreases |a|
  {
    hide Text;
    if a == [] {
      assert a + b == b;
    } else {
      assert (a + b)[1..] == a[1..] + b;
      ElemsTextConcat(a[1..], b, spaced, false);
    }
  }

  lemma {:induction false} BraceFirst(n: nat)
    ensures [T.RBRACE] + Braces(n) == Braces(n + 1)
  {
    if n > 0 {
      BraceFirst(n - 1);
      assert [T.RBRACE] + Braces(n) == [T.RBRACE] + Braces(n - 1) + [T.RBRACE];
    }
  }

  /** An object marshaler's events between braces, closed by its own namespace count. */
  lemma ObjectLayout(evs: seq<Event>, spaced: bool)
    ensures [T.LBRACE] + EventsText(evs, spaced, true) + [T.RBRACE] + Braces(Opens(evs))
         == Text(Object(Nest(evs)), spaced)
  {
    hide EventsText, Opens, Braces, MembersText, Nest;
    var body, close := EventsText(evs, spaced, true), Braces(Opens(evs));
    FlatLayoutIsTreeLayout(evs, spaced, true);
    BraceFirst(Opens(evs));
    OneBrace(Opens(evs));
    assert [T.LBRACE] + body + [T.RBRACE] + close == [T.LBRACE] + body + ([T.RBRACE] + close);
    assert [T.LBRACE] + body + (close + [T.RBRACE]) == [T.LBRACE] + (body + close) + [T.RBRACE];
  }

  lemma AtStartAfterMembers(bs: Bytes, ms: seq<Member>, spaced: bool)
    ensures AtStart(bs + MembersText(ms, spaced, AtStart(bs))) <==> AtStart(bs) && ms == []
  {
    hide MembersText, AtStart, KeyText, Text, Before;
    if ms == [] {
      NoMembersText(spaced);
      assert bs + [] == bs;
    } else {
      var n := |ms| - 1;
      var first := AtStart(bs) && ms[..n] == [];
      assert ms == ms[..n] + [ms[n]];
      MembersTextConcat(ms[..n], [ms[n]], spaced, AtStart(bs));
      OneMember(ms[n], spaced, first);
      var init, lead := MembersText(ms[..n], spaced, AtStart(bs)), Before(first, spaced) + KeyText(ms[n].key, spaced);
      var front := bs + init + lead;
      assert bs + (init + (lead + Text(ms[n].value, spaced))) == front + Text(ms[n].value, spaced);
      AtStartAfterText(front, ms[n].value, spaced);
    }
  }

  /** The same continuation for complete members. */
  lemma MembersContinue(bs: Bytes, a: seq<Member>, b: seq<Member>, spaced: bool)
    ensures var mid := bs + MembersText(a, spaced, AtStart(bs));
            mid + MembersText(b, spaced, AtStart(mid)) == bs + MembersText(a + b, spaced, AtStart(bs))
  {
    hide MembersText, AtStart;
    AtStartAfterMembers(bs, a, spaced);
    MembersTextConcat(a, b, spaced, AtStart(bs));
  }

  /** Splicing a context that was laid out on its own: its separator comes first, if it has
      any text at all. */
  lemma SplicedContext(evs: seq<Event>, spaced: bool, first: bool)
    ensures EventsText(evs, spaced, true) == [] <==> evs == []
    ensures evs != [] ==> EventsText(evs, spaced, first) == Before(first, spaced) + EventsText(evs, spaced, true)
  {
    hide KeyText, Text;
    if evs != [] {
      assert KeyText(evs[0].key, spaced) != [] by { KeyTextNonEmpty(evs[0].key, spaced); }
    }
  }

  lemma KeyTextNonEmpty(key: Bytes, spaced: bool)
    ensures KeyText(key, spaced) != []
  {
  }
}
