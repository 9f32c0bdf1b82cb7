/** The post router as a whole: a server state (the post store and the
    fresh-id counter), the listing, the three authenticated handlers and the
    dispatch that puts the authentication gate in front of them. Every
    handler reads a post, validates, appends to an embedded list and writes
    the post back; a failure leaves the state as it was. */
module Router {

  import opened Outcomes
  import opened JsValues
  import opened JsText
  import opened Schema
  import opened Chain
  import opened Auth
  import opened Posts

  /** The post collection, keyed by id, and the next fresh id. */
  datatype Server = Server(store: map<ObjectId, Document>, nextId: nat)

  /** A successful mutation: the new state and the post sent back. */
  datatype Update = Update(server: Server, post: Post)

  /** The state invariant: every post is stored under its own id, is valid
      once loaded, and holds only ids already drawn from the counter. */
  predicate Valid(s: Server) {
    forall k :: k in s.store ==>
      && s.store[k].id == k
      && PostValid(Hydrate(s.store[k]))
      && IdsBelow(Hydrate(s.store[k]), s.nextId)
  }

  /** The state a fresh deployment starts from. */
  function Initial(): (s: Server)
    ensures Valid(s) && s.store == map[]
  {
    Server(map[], 0)
  }

  // ---------------------------------------------------------------------
  // GET /

  /** The listing's per-post normalisation: a missing `comments` array
      becomes empty, a present one and every other field are kept. */
  function Normalize(d: Document): (r: Document)
    ensures r.comments.Some?
    ensures d.comments.Some? ==> r == d
    ensures d.comments.None? ==> r.comments == Some([])
    ensures r.(comments := d.comments) == d
  {
    d.(comments := Some(OrEmpty(d.comments)))
  }

  /** Normalising twice is normalising once. */
  lemma NormalizeIdempotent(d: Document)
    ensures Normalize(Normalize(d)) == Normalize(d)
  {
  }

  /** The listing shows the same comments a handler sees when it loads the
      post: normalisation agrees with the schema default. */
  lemma NormalizeAgreesWithLoad(d: Document)
    ensures Hydrate(Normalize(d)) == Hydrate(d)
  {
  }

  /** What the database's `find().sort({ createdAt: -1 })` yields: every
      stored post exactly once, most recent first. */
  predicate ListingOrder(s: Server, order: seq<ObjectId>) {
    && (forall k :: k in s.store ==> k in order)
    && (forall i :: 0 <= i < |order| ==> order[i] in s.store)
    && (forall i, j :: 0 <= i < j < |order| ==> order[i] != order[j])
    && (forall i, j :: 0 <= i < j < |order| && order[i] in s.store && order[j] in s.store ==>
          s.store[order[i]].createdAt >= s.store[order[j]].createdAt)
  }

  /** GET /: every post in the database's order, each normalised. No field
      other than a missing `comments` changes, and the order stays newest
      first. */
  function ListPosts(s: Server, order: seq<ObjectId>): (r: seq<Document>)
    requires ListingOrder(s, order)
    ensures |r| == |order|
    ensures forall i :: 0 <= i < |r| ==> order[i] in s.store && r[i] == Normalize(s.store[order[i]])
    ensures forall i :: 0 <= i < |r| ==> r[i].comments.Some?
    ensures forall i, j :: 0 <= i < j < |r| ==> r[i].createdAt >= r[j].createdAt
  {
    seq(|order|, i requires 0 <= i < |order| => Normalize(s.store[order[i]]))
  }

  // ---------------------------------------------------------------------
  // POST /

  /** Create post: the post built by `NewPost` under a fresh id is added
      to the store; nothing else in the store changes. */
  function CreatePost(s: Server, user: Claims, text: Value, startNumber: Value, now: Time): (r: Result<Update>)
    ensures r.Fail? <==> !Truthy(text) && !startNumber.Num?
    ensures r.Fail? ==> r.failure == TextOrStartNumberRequired
    ensures r.Ok? ==> Ok(r.value.post) == NewPost(user, text, startNumber, s.nextId, now)
    ensures r.Ok? ==> r.value.server.store == s.store[r.value.post.id := Persist(r.value.post)]
    ensures r.Ok? ==> r.value.server.nextId == s.nextId + 2
    ensures r.Ok? && Valid(s) ==> r.value.post.id !in s.store
  {
    match NewPost(user, text, startNumber, s.nextId, now)
    case Fail(f) => Fail(f)
    case Ok(p) => Ok(Update(Server(s.store[p.id := Persist(p)], s.nextId + 2), p))
  }

  // ---------------------------------------------------------------------
  // POST /:postId/comments

  /** Add comment: the text is validated before the post is looked up; on
      success exactly one comment is appended to the loaded post and the
      post is written back. */
  function AddComment(s: Server, user: Claims, postId: ObjectId, parentId: Value, text: Value, now: Time): (r: Result<Update>)
    ensures (!text.Str? || AllStrippable(text.s)) ==> r == Fail(TextRequired)
    ensures (text.Str? && !AllStrippable(text.s) && postId !in s.store) ==> r == Fail(PostNotFound)
    ensures r.Ok? <==> text.Str? && !AllStrippable(text.s) && postId in s.store
    ensures r.Ok? ==>
      var p := Hydrate(s.store[postId]);
      var q := r.value.post;
      && q == p.(comments := q.comments)
      && |q.comments| == |p.comments| + 1
      && q.comments[..|p.comments|] == p.comments
      && q.comments[|p.comments|].text == Trim(text.s)
      && (Truthy(parentId) ==> q.comments[|p.comments|].parentId == Some(parentId))
      && (!Truthy(parentId) ==> q.comments[|p.comments|].parentId.None?)
      && q.comments[|p.comments|].id == ObjectId(s.nextId)
      && q.comments[|p.comments|].authorId == user.id
      && q.comments[|p.comments|].authorName == user.username
      && q.comments[|p.comments|].createdAt == now
      && r.value.server.store == s.store[postId := Persist(q)]
      && r.value.server.nextId == s.nextId + 1
  {
    var c :- NewComment(parentId, text, user, ObjectId(s.nextId), now);
    if postId !in s.store then Fail(PostNotFound)
    else
      var p := Hydrate(s.store[postId]);
      var q := WithComment(p, c);
      assert q.comments[..|p.comments|] == p.comments;
      Ok(Update(Server(s.store[postId := Persist(q)], s.nextId + 1), q))
  }

  // ---------------------------------------------------------------------
  // POST /:postId/nodes

  /** Extend chain, with its five failures in the order the handler checks
      them: op, operand, post, parent node, division by zero. On success one
      node is appended to the loaded post and the post is written back. */
  function ExtendChain(s: Server, user: Claims, postId: ObjectId, parentIndex: Value,
                       op: Value, rightOperand: Value, now: Time): (r: Result<Update>)
    ensures ParseOp(op).None? ==> r == Fail(InvalidOp)
    ensures (ParseOp(op).Some? && !rightOperand.Num?) ==> r == Fail(OperandNotNumber)
    ensures (ParseOp(op).Some? && rightOperand.Num? && postId !in s.store) ==> r == Fail(PostNotFound)
    ensures (ParseOp(op).Some? && rightOperand.Num? && postId in s.store
             && ResolveIndex(Hydrate(s.store[postId]).nodes, parentIndex).None?)
              ==> r == Fail(ParentNodeNotFound)
    ensures (op == Str("div") && rightOperand == Num(0.0) && postId in s.store
             && ResolveIndex(Hydrate(s.store[postId]).nodes, parentIndex).Some?)
              ==> r == Fail(DivisionByZero)
    ensures r.Ok? <==>
      && ParseOp(op).Some? && rightOperand.Num? && postId in s.store
      && ResolveIndex(Hydrate(s.store[postId]).nodes, parentIndex).Some?
      && !(op == Str("div") && rightOperand == Num(0.0))
    ensures r.Ok? ==>
      var p := Hydrate(s.store[postId]);
      var q := r.value.post;
      var parent := p.nodes[ResolveIndex(p.nodes, parentIndex).value];
      && q == p.(nodes := q.nodes)
      && |q.nodes| == |p.nodes| + 1
      && q.nodes[..|p.nodes|] == p.nodes
      && q.nodes[|p.nodes|].parentId == Some(parent.id)
      && q.nodes[|p.nodes|].op == ParseOp(op)
      && q.nodes[|p.nodes|].rightOperand == Some(rightOperand.n)
      && q.nodes[|p.nodes|].result == Apply(parent.result, ParseOp(op).value, rightOperand.n)
      && q.nodes[|p.nodes|].id == ObjectId(s.nextId)
      && q.nodes[|p.nodes|].authorId == user.id
      && q.nodes[|p.nodes|].authorName == user.username
      && q.nodes[|p.nodes|].createdAt == now
      && r.value.server.store == s.store[postId := Persist(q)]
      && r.value.server.nextId == s.nextId + 1
  {
    var st :- ParseStep(op, rightOperand);
    if postId !in s.store then Fail(PostNotFound)
    else
      var q :- AppendNode(Hydrate(s.store[postId]), parentIndex, st, user, ObjectId(s.nextId), now);
      Ok(Update(Server(s.store[postId := Persist(q)], s.nextId + 1), q))
  }

  // ---------------------------------------------------------------------
  // Authentication in front of the mutating routes

  datatype Request =
    | CreateRequest(text: Value, startNumber: Value)
    | CommentRequest(postId: ObjectId, parentId: Value, text: Value)
    | NodeRequest(postId: ObjectId, parentIndex: Value, op: Value, rightOperand: Value)

  /** The JSON reply: the created or updated post, or an error. */
  datatype Response = Json(post: Post) | Error(failure: Failure) {
    function StatusCode(): nat {
      if Json? then 200 else Code(StatusOf(failure))
    }
  }

  /** The handler a request is routed to, run as the verified user. */
  function Handler(s: Server, user: Claims, req: Request, now: Time): Result<Update> {
    match req
    case CreateRequest(text, startNumber) => CreatePost(s, user, text, startNumber, now)
    case CommentRequest(postId, parentId, text) => AddComment(s, user, postId, parentId, text, now)
    case NodeRequest(postId, parentIndex, op, rightOperand) =>
      ExtendChain(s, user, postId, parentIndex, op, rightOperand, now)
  }

  /** A mutating request: when authentication fails the reply is a 401 and
      no handler runs; every failure leaves the state unchanged; a success
      replies 200 with the handler's post. */
  function Dispatch(s: Server, header: Option<string>, verify: string -> Option<Claims>,
                    req: Request, now: Time): (r: (Server, Response))
    ensures Authenticate(header, verify).Fail? ==>
      r == (s, Error(Authenticate(header, verify).failure)) && r.1.StatusCode() == 401
    ensures Authenticate(header, verify).Ok? ==>
      var h := Handler(s, Authenticate(header, verify).value, req, now);
      && (h.Fail? ==> r == (s, Error(h.failure)))
      && (h.Ok? ==> r == (h.value.server, Json(h.value.post)))
    ensures r.1.Error? ==> r.0 == s && r.1.StatusCode() in {400, 401, 404}
    ensures r.1.Json? ==> r.1.StatusCode() == 200
  {
    match Authenticate(header, verify)
    case Fail(f) => (s, Error(f))
    case Ok(user) =>
      match Handler(s, user, req, now)
      case Fail(f) => (s, Error(f))
      case Ok(u) => (u.server, Json(u.post))
  }

  // ---------------------------------------------------------------------
  // The invariant is kept

  lemma IdsBelowGrows(p: Post, next: nat, next': nat)
    requires IdsBelow(p, next) && next <= next'
    ensures IdsBelow(p, next')
  {
  }

  /** Writing a valid post back under its own id, with the counter moved
      past every id it holds, keeps the state valid. */
  lemma StoreKeepsValid(s: Server, q: Post, next': nat)
    requires Valid(s) && s.nextId <= next'
    requires PostValid(q) && IdsBelow(q, next')
    ensures Valid(Server(s.store[q.id := Persist(q)], next'))
  {
    var t := Server(s.store[q.id := Persist(q)], next');
    forall k | k in t.store
      ensures t.store[k].id == k
      ensures PostValid(Hydrate(t.store[k])) && IdsBelow(Hydrate(t.store[k]), next')
    {
      if k == q.id {
        HydratePersist(q);
      } else {
        IdsBelowGrows(Hydrate(s.store[k]), s.nextId, next');
      }
    }
  }

  lemma CreatePostKeepsValid(s: Server, user: Claims, text: Value, startNumber: Value, now: Time)
    requires Valid(s)
    ensures var r := CreatePost(s, user, text, startNumber, now);
      r.Ok? ==> Valid(r.value.server)
  {
    var r := CreatePost(s, user, text, startNumber, now);
    if r.Ok? {
      StoreKeepsValid(s, r.value.post, s.nextId + 2);
    }
  }

  /** Writing back a loaded post with one well-formed comment appended
      under the next fresh id keeps the state valid. */
  lemma CommentWriteKeepsValid(s: Server, postId: ObjectId, c: Comment)
    requires Valid(s) && postId in s.store
    requires CommentOk(c) && c.id == ObjectId(s.nextId)
    ensures Valid(Server(s.store[postId := Persist(WithComment(Hydrate(s.store[postId]), c))], s.nextId + 1))
  {
    var p := Hydrate(s.store[postId]);
    WithCommentKeepsValid(p, c, s.nextId);
    StoreKeepsValid(s, WithComment(p, c), s.nextId + 1);
  }

  lemma AddCommentKeepsValid(s: Server, user: Claims, postId: ObjectId, parentId: Value, text: Value, now: Time)
    requires Valid(s)
    ensures var r := AddComment(s, user, postId, parentId, text, now);
      r.Ok? ==> Valid(r.value.server)
  {
    var r := AddComment(s, user, postId, parentId, text, now);
    if r.Ok? {
      var c := NewComment(parentId, text, user, ObjectId(s.nextId), now).value;
      assert r.value.server == Server(s.store[postId := Persist(WithComment(Hydrate(s.store[postId]), c))], s.nextId + 1);
      CommentWriteKeepsValid(s, postId, c);
    }
  }

  /** Writing back a loaded post with one node appended under the next
      fresh id keeps the state valid. */
  lemma NodeWriteKeepsValid(s: Server, postId: ObjectId, parentIndex: Value, st: Step,
                            user: Claims, now: Time)
    requires Valid(s) && postId in s.store
    requires AppendNode(Hydrate(s.store[postId]), parentIndex, st, user, ObjectId(s.nextId), now).Ok?
    ensures var q := AppendNode(Hydrate(s.store[postId]), parentIndex, st, user, ObjectId(s.nextId), now).value;
      Valid(Server(s.store[postId := Persist(q)], s.nextId + 1))
  {
    var p := Hydrate(s.store[postId]);
    AppendNodeKeepsValid(p, parentIndex, st, user, s.nextId, now);
    StoreKeepsValid(s, AppendNode(p, parentIndex, st, user, ObjectId(s.nextId), now).value, s.nextId + 1);
  }

  lemma ExtendChainKeepsValid(s: Server, user: Claims, postId: ObjectId, parentIndex: Value,
                              op: Value, rightOperand: Value, now: Time)
    requires Valid(s)
    ensures var r := ExtendChain(s, user, postId, parentIndex, op, rightOperand, now);
      r.Ok? ==> Valid(r.value.server)
  {
    var r := ExtendChain(s, user, postId, parentIndex, op, rightOperand, now);
    if r.Ok? {
      NodeWriteKeepsValid(s, postId, parentIndex, ParseStep(op, rightOperand).value, user, now);
    }
  }

  /** Whatever request arrives, with whatever credentials, a valid state
      stays valid: chains stay trees of correctly computed nodes, comments
      stay trimmed and non-blank, ids stay fresh. */
  lemma DispatchKeepsValid(s: Server, header: Option<string>, verify: string -> Option<Claims>,
                           req: Request, now: Time)
    requires Valid(s)
    ensures Valid(Dispatch(s, header, verify, req, now).0)
  {
    match Authenticate(header, verify)
    case Fail(_) =>
    case Ok(user) =>
      match req
      case CreateRequest(text, startNumber) => CreatePostKeepsValid(s, user, text, startNumber, now);
      case CommentRequest(postId, parentId, text) => AddCommentKeepsValid(s, user, postId, parentId, text, now);
      case NodeRequest(postId, parentIndex, op, rightOperand) =>
        ExtendChainKeepsValid(s, user, postId, parentIndex, op, rightOperand, now);
  }
}
