/** The messages the phone receives, and what makes a run of them a legal pointer stream. */
module TouchStream {

  datatype Pointer = Pointer(x: int, y: int, id: nat)

  const ACTION_DOWN := 0
  const ACTION_UP := 1
  const ACTION_MOVE := 2
  const ACTION_POINTER_DOWN := 5
  const ACTION_POINTER_UP := 6

  datatype Message = Message(pointers: seq<Pointer>, actionIndex: int, action: int)

  ghost function Ids(ps: seq<Pointer>): set<nat> {
    set i | 0 <= i < |ps| :: ps[i].id
  }

  ghost predicate Ascending(ps: seq<Pointer>) {
    forall i, j :: 0 <= i < j < |ps| ==> ps[i].id < ps[j].id
  }

  /** What the phone may be told when the pointers in `down` are down: DOWN only from none,
      POINTER_DOWN adds one pointer, MOVE and the up messages list exactly those down, and
      UP is for the last. */
  ghost predicate LegalMessage(down: set<nat>, m: Message) {
    && Ascending(m.pointers) && 0 <= m.actionIndex < |m.pointers|
    && var id := m.pointers[m.actionIndex].id;
       || (m.action == ACTION_DOWN && down == {} && Ids(m.pointers) == {id})
       || (m.action == ACTION_POINTER_DOWN && down != {} && id !in down && Ids(m.pointers) == down + {id})
       || (m.action == ACTION_MOVE && Ids(m.pointers) == down)
       || (m.action == ACTION_POINTER_UP && Ids(m.pointers) == down && id in down && down != {id})
       || (m.action == ACTION_UP && Ids(m.pointers) == down == {id})
  }

  /** The pointers down once the phone has handled a message. */
  ghost function After(down: set<nat>, m: Message): set<nat>
    requires 0 <= m.actionIndex < |m.pointers|
  {
    var id := m.pointers[m.actionIndex].id;
    if m.action == ACTION_DOWN || m.action == ACTION_POINTER_DOWN then down + {id}
    else if m.action == ACTION_UP || m.action == ACTION_POINTER_UP then down - {id}
    else down
  }

  /** Every message was legal when it came, and the phone's set is now `down`. */
  ghost predicate LegalStream(sent: seq<Message>, down: set<nat>) {
    if sent == [] then down == {}
    else
      var last := sent[|sent| - 1];
      && 0 <= last.actionIndex < |last.pointers|
      && exists before :: LegalStream(sent[..|sent| - 1], before) && LegalMessage(before, last)
                          && After(before, last) == down
  }

  lemma StreamAppend(sent: seq<Message>, down: set<nat>, m: Message)
    requires LegalStream(sent, down) && LegalMessage(down, m)
    ensures LegalStream(sent + [m], After(down, m))
  {
    assert (sent + [m])[..|sent|] == sent;
  }

  /** A stream determines the phone's set. */
  lemma {:induction false} StreamDetermines(sent: seq<Message>, a: set<nat>, b: set<nat>)
    requires LegalStream(sent, a) && LegalStream(sent, b)
    ensures a == b
  {
    if sent != [] {
      var n := |sent| - 1;
      var x :| LegalStream(sent[..n], x) && LegalMessage(x, sent[n]) && After(x, sent[n]) == a;
      var y :| LegalStream(sent[..n], y) && LegalMessage(y, sent[n]) && After(y, sent[n]) == b;
      StreamDetermines(sent[..n], x, y);
    }
  }

  /** Every prefix of a legal stream is one. */
  lemma {:induction false} PrefixLegal(sent: seq<Message>, down: set<nat>, n: nat)
    requires LegalStream(sent, down) && n <= |sent|
    ensures exists d :: LegalStream(sent[..n], d)
  {
    if n == |sent| {
      assert sent[..n] == sent;
    } else {
      var k := |sent| - 1;
      var before :| LegalStream(sent[..k], before) && LegalMessage(before, sent[k]) && After(before, sent[k]) == down;
      PrefixLegal(sent[..k], before, n);
      assert sent[..k][..n] == sent[..n];
    }
  }
}
