/** The middle of each mutating handler of src/routes/Posts.ts as a pure
    function over in-memory values: building a new post, validating and
    building a comment, validating an operation and appending a node. The
    invariant `PostValid` is what these operations establish and keep. */
module Posts {

  import opened Outcomes
  import opened JsValues
  import opened JsText
  import opened Schema
  import opened Chain
  import opened Auth

  /** A stored comment has non-blank, already trimmed text, and its parent
      reference, when present, is a truthy value. */
  predicate CommentOk(c: Comment) {
    && c.text != [] && IsTrimmed(c.text)
    && (c.parentId.Some? ==> Truthy(c.parentId.value))
  }

  predicate CommentsOk(cs: seq<Comment>) {
    forall k :: 0 <= k < |cs| ==> CommentOk(cs[k])
  }

  /** The shape every post the router creates has and keeps: a post has a
      chain exactly when it has a start number, the chain's root holds the
      start number and is the post author's, and the chain and comments
      keep their invariants. */
  predicate PostValid(p: Post) {
    && ChainOk(p.nodes)
    && (p.startNumber.Some? <==> |p.nodes| > 0)
    && (|p.nodes| > 0 ==> p.nodes[0].result == p.startNumber.value && p.nodes[0].authorId == p.authorId)
    && CommentsOk(p.comments)
  }

  /** All ids in the post were drawn from the counter before `next`. */
  predicate IdsBelow(p: Post, next: nat) {
    && p.id.n < next
    && (forall k :: 0 <= k < |p.nodes| ==> p.nodes[k].id.n < next)
    && (forall k :: 0 <= k < |p.comments| ==> p.comments[k].id.n < next)
  }

  /** Create post: rejected exactly when `text` is falsy and `startNumber`
      is not a number. A string `text` is kept whether or not a number is
      also given; a number seeds a chain with one root node. The post takes
      id `next`, its root node `next + 1`. */
  function NewPost(user: Claims, text: Value, startNumber: Value, next: nat, now: Time): (r: Result<Post>)
    ensures r.Fail? <==> !Truthy(text) && !startNumber.Num?
    ensures r.Fail? ==> r.failure == TextOrStartNumberRequired
    ensures r.Ok? ==>
      var p := r.value;
      && p.id == ObjectId(next) && p.createdAt == now
      && p.authorId == user.id && p.authorName == user.username
      && (text.Str? ==> p.text == Some(text.s))
      && (!text.Str? ==> p.text.None?)
      && p.comments == []
    ensures r.Ok? && startNumber.Num? ==>
      var p := r.value;
      && p.startNumber == Some(startNumber.n)
      && |p.nodes| == 1 && IsRoot(p.nodes[0])
      && p.nodes[0].result == startNumber.n
      && p.nodes[0].id == ObjectId(next + 1)
      && p.nodes[0].authorId == user.id && p.nodes[0].authorName == user.username
      && p.nodes[0].createdAt == now
    ensures r.Ok? && !startNumber.Num? ==> r.value.startNumber.None? && r.value.nodes == []
    ensures r.Ok? ==> PostValid(r.value) && IdsBelow(r.value, next + 2)
  {
    if !Truthy(text) && !startNumber.Num? then
      Fail(TextOrStartNumberRequired)
    else
      var storedText := if text.Str? then Some(text.s) else None;
      match startNumber
      case Num(n) =>
        var root := Node(ObjectId(next + 1), None, None, None, n, user.id, user.username, now);
        Ok(Post(ObjectId(next), user.id, user.username, storedText, Some(n), [root], [], now))
      case _ =>
        Ok(Post(ObjectId(next), user.id, user.username, storedText, None, [], [], now))
  }

  /** The handler does not enforce "text or number, not both": given both,
      the post keeps both. */
  lemma NewPostKeepsBoth(user: Claims, s: string, n: real, next: nat, now: Time)
    ensures NewPost(user, Str(s), Num(n), next, now).Ok?
    ensures NewPost(user, Str(s), Num(n), next, now).value.text == Some(s)
    ensures NewPost(user, Str(s), Num(n), next, now).value.startNumber == Some(n)
  {
  }

  /** Nor does it enforce "at least one of them": a truthy `text` that is
      not a string passes validation but is not stored, and the post ends
      up with neither text nor chain. */
  lemma NewPostMayHoldNeither(user: Claims, next: nat, now: Time)
    ensures NewPost(user, Num(5.0), Undefined, next, now).Ok?
    ensures NewPost(user, Num(5.0), Undefined, next, now).value.text.None?
    ensures NewPost(user, Num(5.0), Undefined, next, now).value.startNumber.None?
  {
  }

  /** Add comment, before the post is looked up: the text must be a string
      that is not blank; the stored text is trimmed, and a falsy `parentId`
      becomes null. */
  function NewComment(parentId: Value, text: Value, user: Claims, id: ObjectId, now: Time): (r: Result<Comment>)
    ensures r.Fail? <==> !text.Str? || AllStrippable(text.s)
    ensures r.Fail? ==> r.failure == TextRequired
    ensures r.Ok? ==>
      var c := r.value;
      && c.text == Trim(text.s) && CommentOk(c)
      && (Truthy(parentId) ==> c.parentId == Some(parentId))
      && (!Truthy(parentId) ==> c.parentId.None?)
      && c.id == id && c.authorId == user.id && c.authorName == user.username && c.createdAt == now
  {
    if !text.Str? then Fail(TextRequired)
    else
      var t := Trim(text.s);
      TrimEmptyIffBlank(text.s);
      if t == [] then Fail(TextRequired)
      else
        Ok(Comment(id, if Truthy(parentId) then Some(parentId) else None, t, user.id, user.username, now))
  }

  /** A post with one more comment at the end: the comment list grows by
      exactly `c`, and nothing else about the post changes. */
  function WithComment(p: Post, c: Comment): (q: Post)
    ensures |q.comments| == |p.comments| + 1 && q.comments[|p.comments|] == c
    ensures q.comments[..|p.comments|] == p.comments
    ensures q == p.(comments := q.comments)
  {
    p.(comments := p.comments + [c])
  }

  /** Appending a comment of the shape `NewComment` builds, under a fresh
      id, keeps the post's invariant, and only the comment list changes: it grows by
      exactly that comment at the end. */
  lemma WithCommentKeepsValid(p: Post, c: Comment, next: nat)
    requires PostValid(p) && IdsBelow(p, next)
    requires CommentOk(c) && c.id == ObjectId(next)
    ensures var q := WithComment(p, c);
      && PostValid(q) && IdsBelow(q, next + 1)
      && q.nodes == p.nodes && q.text == p.text && q.startNumber == p.startNumber
      && |q.comments| == |p.comments| + 1 && q.comments[..|p.comments|] == p.comments
  {
    var q := WithComment(p, c);
    assert q.comments[..|p.comments|] == p.comments;
    forall k | 0 <= k < |q.comments|
      ensures CommentOk(q.comments[k]) && q.comments[k].id.n < next + 1
    {
      if k < |p.comments| {
        assert q.comments[k] == p.comments[k];
      } else {
        assert q.comments[k] == c;
      }
    }
  }

  /** Extend chain, before the post is looked up: `op` must name one of the
      four operators (checked first) and `rightOperand` must be a number. */
  function ParseStep(op: Value, rightOperand: Value): (r: Result<Step>)
    ensures ParseOp(op).None? ==> r == Fail(InvalidOp)
    ensures ParseOp(op).Some? && !rightOperand.Num? ==> r == Fail(OperandNotNumber)
    ensures r.Ok? <==> ParseOp(op).Some? && rightOperand.Num?
    ensures r.Ok? ==> op == Str(OpName(r.value.op)) && rightOperand == Num(r.value.operand)
  {
    match ParseOp(op)
    case None => Fail(InvalidOp)
    case Some(o) =>
      if !rightOperand.Num? then Fail(OperandNotNumber)
      else Ok(Step(o, rightOperand.n))
  }

  /** Extend chain, once the post is found: `parentIndex` must name an
      existing node (else 400, checked before the divisor), a division by
      zero is refused, and otherwise exactly one node is appended. It
      references the parent's id and holds the parent's result combined
      with the operand; every earlier node and every other field is kept. */
  function AppendNode(p: Post, parentIndex: Value, st: Step, user: Claims, id: ObjectId, now: Time): (r: Result<Post>)
    ensures ResolveIndex(p.nodes, parentIndex).None? ==> r == Fail(ParentNodeNotFound)
    ensures (ResolveIndex(p.nodes, parentIndex).Some? && st.op == Div && st.operand == 0.0)
              ==> r == Fail(DivisionByZero)
    ensures r.Ok? <==> ResolveIndex(p.nodes, parentIndex).Some? && Defined(st)
    ensures r.Ok? ==>
      var q := r.value;
      && |q.nodes| == |p.nodes| + 1
      && q.nodes[..|p.nodes|] == p.nodes
      && q == p.(nodes := q.nodes)
    ensures r.Ok? ==>
      var parent := p.nodes[ResolveIndex(p.nodes, parentIndex).value];
      var n := r.value.nodes[|p.nodes|];
      && n.id == id && n.parentId == Some(parent.id)
      && n.op == Some(st.op) && n.rightOperand == Some(st.operand)
      && (st.op == Add ==> n.result == parent.result + st.operand)
      && (st.op == Sub ==> n.result == parent.result - st.operand)
      && (st.op == Mul ==> n.result == parent.result * st.operand)
      && (st.op == Div ==> n.result == parent.result / st.operand)
      && n.authorId == user.id && n.authorName == user.username && n.createdAt == now
  {
    match ResolveIndex(p.nodes, parentIndex)
    case None => Fail(ParentNodeNotFound)
    case Some(i) =>
      if st.op == Div && st.operand == 0.0 then Fail(DivisionByZero)
      else
        var parent := p.nodes[i];
        var n := Node(id, Some(parent.id), Some(st.op), Some(st.operand),
                      Apply(parent.result, st.op, st.operand), user.id, user.username, now);
        var q := p.(nodes := p.nodes + [n]);
        assert q.nodes[..|p.nodes|] == p.nodes;
        Ok(q)
  }

  /** Appending a node under a fresh id keeps the post's invariant; in
      particular the new node's parent sits at a smaller index. */
  lemma AppendNodeKeepsValid(p: Post, parentIndex: Value, st: Step, user: Claims, next: nat, now: Time)
    requires PostValid(p) && IdsBelow(p, next)
    requires AppendNode(p, parentIndex, st, user, ObjectId(next), now).Ok?
    ensures var q := AppendNode(p, parentIndex, st, user, ObjectId(next), now).value;
      PostValid(q) && IdsBelow(q, next + 1)
  {
    var q := AppendNode(p, parentIndex, st, user, ObjectId(next), now).value;
    var j := ResolveIndex(p.nodes, parentIndex).value;
    var n := q.nodes[|p.nodes|];
    assert q.nodes == p.nodes + [n];
    AppendKeepsChain(p.nodes, j, n);
    assert q.nodes[0] == p.nodes[0];
  }

  /** A post without a chain (a text post: `nodes` defaults to empty)
      can never be extended; every attempt fails at the parent lookup. */
  lemma TextPostCannotExtend(p: Post, parentIndex: Value, st: Step, user: Claims, id: ObjectId, now: Time)
    requires p.nodes == []
    ensures AppendNode(p, parentIndex, st, user, id, now) == Fail(ParentNodeNotFound)
  {
    ResolveInEmpty(parentIndex);
  }
}
