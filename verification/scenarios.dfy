/** Worked examples of the router's rules on concrete requests. */
module Scenarios {

  import opened Outcomes
  import opened JsValues
  import opened JsText
  import opened Schema
  import opened Chain
  import opened Auth
  import opened Posts
  import opened Router

  /** A chain seeded with 100, extended by "sub 30" from the root, gets a
      node holding 70 that references the root; asking that node to be
      divided by zero is refused and the state does not change. */
  lemma SubtractThenDivideByZero(user: Claims, now: Time)
    ensures CreatePost(Initial(), user, Undefined, Num(100.0), now).Ok?
    ensures
      var u1 := CreatePost(Initial(), user, Undefined, Num(100.0), now).value;
      var r2 := ExtendChain(u1.server, user, u1.post.id, Num(0.0), Str("sub"), Num(30.0), now);
      && r2.Ok?
      && |r2.value.post.nodes| == 2
      && r2.value.post.nodes[1].result == 70.0
      && r2.value.post.nodes[1].parentId == Some(r2.value.post.nodes[0].id)
      && ExtendChain(r2.value.server, user, u1.post.id, Num(1.0), Str("div"), Num(0.0), now)
           == Fail(DivisionByZero)
  {
    var u1 := CreatePost(Initial(), user, Undefined, Num(100.0), now).value;
    var id := u1.post.id;
    assert Hydrate(u1.server.store[id]) == u1.post;
    assert |u1.post.nodes| == 1 && u1.post.nodes[0].result == 100.0;
    ResolveEveryIndex(u1.post.nodes, 0);
    var r2 := ExtendChain(u1.server, user, id, Num(0.0), Str("sub"), Num(30.0), now);
    assert r2.Ok?;
    var q := r2.value.post;
    assert Hydrate(r2.value.server.store[id]) == q;
    ResolveEveryIndex(q.nodes, 1);
  }

  /** The padding around a comment is stripped: "  hi  " is stored as "hi". */
  lemma TrimsPadding()
    ensures Trim("  hi  ") == "hi"
  {
    assert "  hi  " == "  " + "hi" + "  ";
    TrimOfPadded("  ", "hi", "  ");
  }

  /** Multiplying a node holding 10 by 3 gives 30. */
  lemma MultiplyExample(p: Post, user: Claims, id: ObjectId, now: Time)
    requires |p.nodes| == 1 && p.nodes[0].result == 10.0
    ensures AppendNode(p, Num(0.0), Step(Mul, 3.0), user, id, now).Ok?
    ensures AppendNode(p, Num(0.0), Step(Mul, 3.0), user, id, now).value.nodes[1].result == 30.0
  {
    ResolveEveryIndex(p.nodes, 0);
  }
}
