/** The error table that drives gRPC, HTTP and MCP alike: registering categories,
    reducing any error to a row and a client-safe message, and carrying the
    category over a gRPC hop. */
module ErrorRegistry {
  import opened Common

  type Category = string
  type Code = int

  const CODE_OK: Code := 0
  const CODE_CANCELED: Code := 1
  const CODE_UNKNOWN: Code := 2
  const CODE_INVALID_ARGUMENT: Code := 3
  const CODE_DEADLINE_EXCEEDED: Code := 4
  const CODE_PERMISSION_DENIED: Code := 7
  const CODE_INTERNAL: Code := 13
  const CODE_UNAVAILABLE: Code := 14
  const CODE_UNAUTHENTICATED: Code := 16

  const CAT_INVALID_ARGUMENT: Category := "invalid_argument"
  const CAT_UNAUTHENTICATED: Category := "unauthenticated"
  const CAT_DEADLINE_EXCEEDED: Category := "deadline_exceeded"
  const CAT_CANCELED: Category := "canceled"
  const CAT_INTERNAL: Category := "internal"

  const INFO_DOMAIN := "gortexa.apperr"

  datatype Mapping = Mapping(category: Category, code: Code, http: int, retryable: bool, safe: string)

  const FALLBACK := Mapping(CAT_INTERNAL, CODE_INTERNAL, 500, false, "internal error")

  /** Rows by category, and for each code the category that owns it. */
  datatype Tables = Tables(byCat: map<Category, Mapping>, byCode: map<Code, Category>)

  const EMPTY := Tables(map[], map[])

  // ---------------------------------------------------------------------------
  // Registration
  // ---------------------------------------------------------------------------

  /** None is the panic on a duplicate category or an unmappable code. */
  function RegisterStep(t: Tables, m: Mapping): Option<Tables> {
    if m.category in t.byCat || m.code == CODE_OK || m.code == CODE_UNKNOWN then None
    else Some(Tables(t.byCat[m.category := m],
                     if m.code in t.byCode then t.byCode else t.byCode[m.code := m.category]))
  }

  function Build(seed: seq<Mapping>): Option<Tables> {
    if seed == [] then Some(EMPTY) else
    match Build(seed[..|seed| - 1])
    case None => None
    case Some(t) => RegisterStep(t, seed[|seed| - 1])
  }

  lemma {:induction false} BuildFailsOn(seed: seq<Mapping>, i: nat)
    requires i <= |seed| && Build(seed[..i]).None?
    ensures Build(seed).None?
  {
    if i < |seed| {
      BuildFailsOn(seed[..|seed| - 1], i) by {
        assert seed[..|seed| - 1][..i] == seed[..i];
      }
    } else {
      assert seed[..i] == seed;
    }
  }

  class Registry {
    var byCat: map<Category, Mapping>
    var byCode: map<Code, Category>

    function Abs(): Tables
      reads this
    {
      Tables(byCat, byCode)
    }

    constructor ()
      ensures Abs() == EMPTY
    {
      byCat, byCode := map[], map[];
    }

    /** A panic leaves both tables alone. */
    method Register(m: Mapping) returns (ok: bool)
      modifies this
      ensures ok <==> RegisterStep(old(Abs()), m).Some?
      ensures Abs() == if ok then RegisterStep(old(Abs()), m).value else old(Abs())
    {
      if m.category in byCat {
        return false;
      }
      if m.code == CODE_OK || m.code == CODE_UNKNOWN {
        return false;
      }
      byCat := byCat[m.category := m];
      if m.code !in byCode {
        byCode := byCode[m.code := m.category];
      }
      return true;
    }

    static method NewRegistry(seed: seq<Mapping>) returns (r: Registry, ok: bool)
      ensures fresh(r)
      ensures ok <==> Build(seed).Some?
      ensures ok ==> r.Abs() == Build(seed).value
    {
      r := new Registry();
      var i := 0;
      while i < |seed|
        invariant 0 <= i <= |seed|
        invariant fresh(r)
        invariant Build(seed[..i]) == Some(r.Abs())
      {
        assert seed[..i + 1][..i] == seed[..i];
        ok := r.Register(seed[i]);
        if !ok {
          BuildFailsOn(seed, i + 1);
          return;
        }
        i := i + 1;
      }
      assert seed[..i] == seed;
      ok := true;
    }
  }

  /** What registration keeps: rows sit under their own category and map to real
      codes, and each code in use is owned by a category that has it. */
  ghost predicate TablesOk(t: Tables) {
    && (forall k | k in t.byCat ::
         t.byCat[k].category == k && t.byCat[k].code != CODE_OK && t.byCat[k].code != CODE_UNKNOWN && t.byCat[k].code in t.byCode)
    && (forall c | c in t.byCode :: t.byCode[c] in t.byCat && t.byCat[t.byCode[c]].code == c)
  }

  /** The first row of the seed with the code, or the length when there is none. */
  function FirstWithCode(seed: seq<Mapping>, c: Code): (i: nat)
    ensures i <= |seed| && (forall k | 0 <= k < i :: seed[k].code != c)
    ensures i < |seed| ==> seed[i].code == c
  {
    if seed == [] || seed[0].code == c then 0 else 1 + FirstWithCode(seed[1..], c)
  }

  lemma FirstWithCodeAppend(seed: seq<Mapping>, m: Mapping, c: Code)
    ensures FirstWithCode(seed + [m], c) ==
            if FirstWithCode(seed, c) < |seed| then FirstWithCode(seed, c)
            else if m.code == c then |seed| else |seed| + 1
  {
    var longer := seed + [m];
    var a, b := FirstWithCode(seed, c), FirstWithCode(longer, c);
    assert a < |seed| ==> longer[a] == seed[a];
    assert b < |seed| ==> longer[b] == seed[b];
    assert longer[|seed|] == m;
  }

  ghost predicate Registrable(seed: seq<Mapping>) {
    && (forall i | 0 <= i < |seed| :: seed[i].code != CODE_OK && seed[i].code != CODE_UNKNOWN)
    && (forall i, j | 0 <= i < j < |seed| :: seed[i].category != seed[j].category)
  }

  lemma RegisterKeepsTables(t: Tables, m: Mapping)
    requires TablesOk(t) && RegisterStep(t, m).Some?
    ensures TablesOk(RegisterStep(t, m).value)
  {
  }

  /** The rows of the tables are those of the seed. */
  ghost predicate SameRows(seed: seq<Mapping>, t: Tables) {
    && (forall i | 0 <= i < |seed| :: seed[i].category in t.byCat && t.byCat[seed[i].category] == seed[i])
    && (forall k | k in t.byCat :: exists i | 0 <= i < |seed| :: seed[i].category == k)
  }

  lemma SameRowsStep(seed: seq<Mapping>, t: Tables, m: Mapping)
    requires SameRows(seed, t) && RegisterStep(t, m).Some?
    ensures SameRows(seed + [m], RegisterStep(t, m).value)
  {
    var longer, u := seed + [m], RegisterStep(t, m).value;
    forall k | k in u.byCat
      ensures exists i | 0 <= i < |longer| :: longer[i].category == k
    {
      if k == m.category {
        assert longer[|seed|].category == k;
      } else {
        var i :| 0 <= i < |seed| && seed[i].category == k;
        assert longer[i].category == k;
      }
    }
  }

  lemma RegistrableStep(seed: seq<Mapping>, t: Tables, m: Mapping)
    requires SameRows(seed, t) && Registrable(seed)
    ensures Registrable(seed + [m]) <==> RegisterStep(t, m).Some?
  {
    var longer := seed + [m];
    if m.category in t.byCat {
      var i :| 0 <= i < |seed| && seed[i].category == m.category;
      assert longer[i].category == longer[|seed|].category;
    }
    assert longer[|seed|] == m;
    if RegisterStep(t, m).Some? {
      assert forall i | 0 <= i < |seed| :: longer[i] == seed[i] && seed[i].category != m.category;
    }
  }

  /** Building succeeds exactly on distinct categories with real codes, and the
      tables then hold exactly the rows of the seed. */
  lemma {:induction false} BuildExact(seed: seq<Mapping>)
    ensures Build(seed).Some? <==> Registrable(seed)
    ensures Build(seed).Some? ==> TablesOk(Build(seed).value) && SameRows(seed, Build(seed).value)
  {
    if seed != [] {
      var n := |seed| - 1;
      var front, m := seed[..n], seed[n];
      BuildExact(front);
      assert seed == front + [m];
      if Build(front).Some? {
        var t := Build(front).value;
        RegistrableStep(front, t, m);
        if RegisterStep(t, m).Some? {
          RegisterKeepsTables(t, m);
          SameRowsStep(front, t, m);
        }
      } else {
        assert forall i | 0 <= i < n :: seed[i] == front[i];
      }
    }
  }

  /** A code is owned by the first category registered for it. */
  lemma {:induction false} OwnerIsFirst(seed: seq<Mapping>, c: Code)
    requires Build(seed).Some?
    ensures
      var t := Build(seed).value;
      && (c in t.byCode <==> FirstWithCode(seed, c) < |seed|)
      && (c in t.byCode ==> t.byCode[c] == seed[FirstWithCode(seed, c)].category)
  {
    if seed != [] {
      var n := |seed| - 1;
      OwnerIsFirst(seed[..n], c);
      assert seed == seed[..n] + [seed[n]];
      FirstWithCodeAppend(seed[..n], seed[n], c);
    }
  }

  function DefaultMappings(): seq<Mapping> {
    [
      Mapping(CAT_INVALID_ARGUMENT, CODE_INVALID_ARGUMENT, 400, false, "invalid argument"),
      Mapping(CAT_UNAUTHENTICATED, CODE_UNAUTHENTICATED, 401, false, "unauthenticated"),
      Mapping("permission_denied", CODE_PERMISSION_DENIED, 403, false, "permission denied"),
      Mapping("not_found", 5, 404, false, "not found"),
      Mapping("already_exists", 6, 409, false, "already exists"),
      Mapping("resource_exhausted", 8, 429, true, "resource exhausted"),
      Mapping("failed_precondition", 9, 412, false, "failed precondition"),
      Mapping("aborted", 10, 409, true, "aborted"),
      Mapping(CAT_DEADLINE_EXCEEDED, CODE_DEADLINE_EXCEEDED, 504, true, "deadline exceeded"),
      Mapping("unavailable", CODE_UNAVAILABLE, 503, true, "unavailable"),
      Mapping("unimplemented", 12, 501, false, "unimplemented"),
      Mapping(CAT_INTERNAL, CODE_INTERNAL, 500, false, "internal error"),
      Mapping(CAT_CANCELED, CODE_CANCELED, 499, false, "canceled"),
      Mapping("out_of_range", 11, 400, false, "out of range"),
      Mapping("data_loss", 15, 500, false, "data loss")
    ]
  }

  // ---------------------------------------------------------------------------
  // Errors and how they resolve
  // ---------------------------------------------------------------------------

  datatype Detail = ErrorInfo(domain: string, reason: string) | OtherDetail

  datatype Status = Status(code: Code, message: string, details: seq<Detail>)

  /** An error value: a domain error with an optional cause, a typed nil domain
      error, a context error, a gRPC status, text around any number of causes, or
      something else. */
  datatype Error =
    | Domain(cat: Category, msg: string, cause: Option<Error>)
    | NilDomain
    | DeadlineExceeded
    | Canceled
    | StatusError(st: Status)
    | Wrapped(text: string, causes: seq<Error>)
    | Plain(text: string)

  /** The status a typed nil domain error reports. */
  const NIL_STATUS := Status(CODE_INTERNAL, "internal error", [])

  /** What a search through the wrapping tree, outermost and leftmost first, stops at. */
  datatype Found = Nothing | FoundDomain(cat: Category, msg: string) | FoundNil | FoundStatus(st: Status)

  /** The first domain error. */
  function FirstDomain(e: Error): Found
    decreases e, 1
  {
    match e
    case Domain(cat, msg, _) => FoundDomain(cat, msg)
    case NilDomain => FoundNil
    case Wrapped(_, causes) => FirstDomainIn(causes)
    case _ => Nothing
  }

  function FirstDomainIn(es: seq<Error>): Found
    decreases es, 0
  {
    if es == [] then Nothing else
    var f := FirstDomain(es[0]);
    if f.Nothing? then FirstDomainIn(es[1..]) else f
  }

  /** The first error that reports a gRPC status; domain errors do, nil ones included. */
  function FirstStatus(e: Error): Found
    decreases e, 1
  {
    match e
    case Domain(cat, msg, _) => FoundDomain(cat, msg)
    case NilDomain => FoundNil
    case StatusError(st) => FoundStatus(st)
    case Wrapped(_, causes) => FirstStatusIn(causes)
    case _ => Nothing
  }

  function FirstStatusIn(es: seq<Error>): Found
    decreases es, 0
  {
    if es == [] then Nothing else
    var f := FirstStatus(es[0]);
    if f.Nothing? then FirstStatusIn(es[1..]) else f
  }

  /** Whether the context error occurs anywhere, causes of domain errors included. */
  predicate Mentions(e: Error, target: Error)
    decreases e, 1
  {
    e == target ||
    match e
    case Domain(_, _, Some(cause)) => Mentions(cause, target)
    case Wrapped(_, causes) => MentionsIn(causes, target)
    case _ => false
  }

  predicate MentionsIn(es: seq<Error>, target: Error)
    decreases es, 0
  {
    es != [] && (Mentions(es[0], target) || MentionsIn(es[1..], target))
  }

  function ContextCategory(e: Error): Option<Category> {
    if Mentions(e, DeadlineExceeded) then Some(CAT_DEADLINE_EXCEEDED)
    else if Mentions(e, Canceled) then Some(CAT_CANCELED)
    else None
  }

  function Internal(t: Tables): Mapping {
    if CAT_INTERNAL in t.byCat then t.byCat[CAT_INTERNAL] else FALLBACK
  }

  /** The category named by the first detail that agrees with the code. */
  function NamedCategory(t: Tables, details: seq<Detail>, code: Code): Option<Category> {
    if details == [] then None
    else if details[0].ErrorInfo? && details[0].domain == INFO_DOMAIN
            && details[0].reason in t.byCat && t.byCat[details[0].reason].code == code
    then Some(t.byCat[details[0].reason].category)
    else NamedCategory(t, details[1..], code)
  }

  function StatusCategory(t: Tables, st: Status): Option<Category> {
    var named := NamedCategory(t, st.details, st.code);
    if named.Some? then named
    else if st.code in t.byCode then Some(t.byCode[st.code]) else None
  }

  /** Only these two categories may forward a message to the client. */
  predicate Speaks(cat: Category) {
    cat == CAT_INVALID_ARGUMENT || cat == CAT_UNAUTHENTICATED
  }

  function ResolveStatus(t: Tables, st: Status): (Mapping, string) {
    var cat := if st.code == CODE_UNKNOWN || st.code == CODE_OK then None else StatusCategory(t, st);
    if cat.Some? && cat.value in t.byCat && t.byCat[cat.value].category != CAT_INTERNAL then
      var m := t.byCat[cat.value];
      (m, if Speaks(m.category) then st.message else m.safe)
    else
      (Internal(t), Internal(t).safe)
  }

  /** Any error, reduced to a row of the table and the message to emit. */
  function Resolve(t: Tables, e: Error): (Mapping, string) {
    match FirstDomain(e)
    case FoundDomain(cat, msg) =>
      if cat !in t.byCat || t.byCat[cat].category == CAT_INTERNAL then (Internal(t), Internal(t).safe)
      else
        var m := t.byCat[cat];
        (m, if Speaks(m.category) && msg != "" then msg else m.safe)
    case _ =>
      var ctx := ContextCategory(e);
      if ctx.Some? && ctx.value in t.byCat then (t.byCat[ctx.value], t.byCat[ctx.value].safe)
      else match FirstStatus(e)
        case FoundStatus(st) => ResolveStatus(t, st)
        case FoundNil => ResolveStatus(t, NIL_STATUS)
        case _ => (Internal(t), Internal(t).safe)
  }

  /** The gRPC status of an error; a detail names the category unless its code is its own. */
  function ToStatus(t: Tables, e: Error): Status {
    var (m, msg) := Resolve(t, e);
    var owner := if m.code in t.byCode then t.byCode[m.code] else "";
    Status(m.code, msg, if owner == "" || owner == m.category then [] else [ErrorInfo(INFO_DOMAIN, m.category)])
  }

  datatype HttpReply = HttpReply(status: int, code: string, message: string)

  function ToHttp(t: Tables, e: Error): HttpReply {
    var (m, msg) := Resolve(t, e);
    HttpReply(m.http, m.category, msg)
  }

  datatype McpReply = McpReply(category: string, retryable: bool, message: string)

  function ToMcp(t: Tables, e: Error): McpReply {
    var (m, msg) := Resolve(t, e);
    McpReply(m.category, m.retryable, msg)
  }

  // ---------------------------------------------------------------------------
  // What every error resolves to
  // ---------------------------------------------------------------------------

  /** All errors that unwrapping reaches, outermost and leftmost first. */
  function Chain(e: Error): seq<Error>
    decreases e, 1
  {
    match e
    case Domain(_, _, Some(cause)) => [e] + Chain(cause)
    case Wrapped(_, causes) => [e] + Chains(causes)
    case _ => [e]
  }

  function Chains(es: seq<Error>): seq<Error>
    decreases es, 0
  {
    if es == [] then [] else Chain(es[0]) + Chains(es[1..])
  }

  predicate IsDomain(e: Error) { e.Domain? || e.NilDomain? }

  predicate HasStatus(e: Error) { IsDomain(e) || e.StatusError? }

  /** What is found at an error that a search stops at. */
  function FoundAt(e: Error): Found
    requires HasStatus(e)
  {
    match e
    case Domain(cat, msg, _) => FoundDomain(cat, msg)
    case NilDomain => FoundNil
    case StatusError(st) => FoundStatus(st)
  }

  /** The first error of the list of a kind, or nothing. */
  function FirstOf(es: seq<Error>, statuses: bool): Found {
    if es == [] then Nothing
    else if IsDomain(es[0]) || (statuses && es[0].StatusError?) then FoundAt(es[0])
    else FirstOf(es[1..], statuses)
  }

  lemma {:induction false} FirstOfJoin(a: seq<Error>, b: seq<Error>, statuses: bool)
    ensures FirstOf(a + b, statuses) ==
            if FirstOf(a, statuses).Nothing? then FirstOf(b, statuses) else FirstOf(a, statuses)
  {
    if a == [] {
      assert a + b == b;
    } else {
      assert (a + b)[1..] == a[1..] + b;
      FirstOfJoin(a[1..], b, statuses);
    }
  }

  /** The two searches and the test for a context error all go through the chain. */
  lemma {:induction false} SearchesFollowChain(e: Error)
    ensures FirstDomain(e) == FirstOf(Chain(e), false)
    ensures FirstStatus(e) == FirstOf(Chain(e), true)
    ensures Mentions(e, DeadlineExceeded) <==> DeadlineExceeded in Chain(e)
    ensures Mentions(e, Canceled) <==> Canceled in Chain(e)
    decreases e, 1
  {
    assert Chain(e)[0] == e;
    match e {
      case Domain(_, _, Some(cause)) => SearchesFollowChain(cause);
      case Wrapped(_, causes) =>
        SearchesFollowChains(causes);
        assert Chain(e)[1..] == Chains(causes);
      case _ =>
    }
  }

  lemma {:induction false} SearchesFollowChains(es: seq<Error>)
    ensures FirstDomainIn(es) == FirstOf(Chains(es), false)
    ensures FirstStatusIn(es) == FirstOf(Chains(es), true)
    ensures MentionsIn(es, DeadlineExceeded) <==> DeadlineExceeded in Chains(es)
    ensures MentionsIn(es, Canceled) <==> Canceled in Chains(es)
    decreases es, 0
  {
    if es != [] {
      SearchesFollowChain(es[0]);
      SearchesFollowChains(es[1..]);
      FirstOfJoin(Chain(es[0]), Chains(es[1..]), false);
      FirstOfJoin(Chain(es[0]), Chains(es[1..]), true);
    }
  }

  lemma {:induction false} FirstOfAt(es: seq<Error>, statuses: bool, k: nat)
    requires k < |es| && (IsDomain(es[k]) || (statuses && es[k].StatusError?))
    requires forall j | 0 <= j < k :: !IsDomain(es[j]) && !(statuses && es[j].StatusError?)
    ensures FirstOf(es, statuses) == FoundAt(es[k])
  {
    if k > 0 {
      FirstOfAt(es[1..], statuses, k - 1);
    }
  }

  lemma {:induction false} FirstOfNone(es: seq<Error>, statuses: bool)
    requires forall j | 0 <= j < |es| :: !IsDomain(es[j]) && !(statuses && es[j].StatusError?)
    ensures FirstOf(es, statuses) == Nothing
  {
    if es != [] {
      FirstOfNone(es[1..], statuses);
    }
  }

  /** The row and message for an error of the internal category or of none. */
  ghost predicate IsInternal(t: Tables, r: (Mapping, string)) {
    && r.0 == (if CAT_INTERNAL in t.byCat then t.byCat[CAT_INTERNAL] else Mapping("internal", 13, 500, false, "internal error"))
    && r.1 == r.0.safe
  }

  /** A category that is registered, other than the internal one. */
  predicate IsPublic(t: Tables, cat: Category) {
    cat in t.byCat && cat != CAT_INTERNAL
  }

  /** An error whose first domain error is a real one resolves to the row of its category,
      with its own message if the category may speak and there is one; an internal or
      unregistered category gives nothing away. */
  lemma {:induction false} DomainResolves(t: Tables, e: Error, k: nat)
    requires TablesOk(t) && k < |Chain(e)| && Chain(e)[k].Domain? && forall j | 0 <= j < k :: !IsDomain(Chain(e)[j])
    ensures
      var d, r := Chain(e)[k], Resolve(t, e);
      if IsPublic(t, d.cat) then
        && r.0 == t.byCat[d.cat]
        && r.1 == if d.cat in {"invalid_argument", "unauthenticated"} && d.msg != "" then d.msg else r.0.safe
      else IsInternal(t, r)
  {
    SearchesFollowChain(e);
    FirstOfAt(Chain(e), false, k);
  }

  /** The chain has no domain error, or the first is a nil one. */
  ghost predicate NoRealDomain(e: Error) {
    FirstOf(Chain(e), false) in {Nothing, FoundNil}
  }

  /** Without a domain error, an expired deadline anywhere in the chain decides, and after
      it a cancellation, if their categories are registered. */
  lemma {:induction false} ContextResolves(t: Tables, e: Error)
    requires TablesOk(t) && NoRealDomain(e)
    ensures DeadlineExceeded in Chain(e) && "deadline_exceeded" in t.byCat ==>
      Resolve(t, e) == (t.byCat["deadline_exceeded"], t.byCat["deadline_exceeded"].safe)
    ensures DeadlineExceeded !in Chain(e) && Canceled in Chain(e) && "canceled" in t.byCat ==>
      Resolve(t, e) == (t.byCat["canceled"], t.byCat["canceled"].safe)
  {
    SearchesFollowChain(e);
  }

  /** No context error of a registered category is in the chain. */
  ghost predicate NoContext(t: Tables, e: Error) {
    if DeadlineExceeded in Chain(e) then "deadline_exceeded" !in t.byCat
    else Canceled in Chain(e) ==> "canceled" !in t.byCat
  }

  /** The detail names a registered category with the code of the status. */
  predicate Names(t: Tables, d: Detail, code: Code) {
    d.ErrorInfo? && d.domain == "gortexa.apperr" && d.reason in t.byCat && t.byCat[d.reason].code == code
  }

  /** The category of a status: named by the first of its details that does, or else the
      owner of its code. */
  ghost predicate StatusNames(t: Tables, st: Status, cat: Category) {
    || (exists i | 0 <= i < |st.details| ::
          Names(t, st.details[i], st.code) && cat == st.details[i].reason
          && forall j | 0 <= j < i :: !Names(t, st.details[j], st.code))
    || ((forall i | 0 <= i < |st.details| :: !Names(t, st.details[i], st.code))
        && st.code in t.byCode && cat == t.byCode[st.code])
  }

  lemma {:induction false} NamedExactly(t: Tables, details: seq<Detail>, code: Code)
    requires TablesOk(t)
    ensures NamedCategory(t, details, code).None? <==> forall i | 0 <= i < |details| :: !Names(t, details[i], code)
    ensures NamedCategory(t, details, code).Some? ==>
      exists i | 0 <= i < |details| ::
        Names(t, details[i], code) && NamedCategory(t, details, code).value == details[i].reason
        && forall j | 0 <= j < i :: !Names(t, details[j], code)
  {
    if details != [] && !Names(t, details[0], code) {
      NamedExactly(t, details[1..], code);
      if NamedCategory(t, details, code).Some? {
        var i :| 0 <= i < |details[1..]| && Names(t, details[1..][i], code)
          && NamedCategory(t, details, code).value == details[1..][i].reason
          && forall j | 0 <= j < i :: !Names(t, details[1..][j], code);
        forall j | 0 <= j < i + 1
          ensures !Names(t, details[j], code)
        {
          assert j > 0 ==> details[j] == details[1..][j - 1];
        }
        assert details[i + 1] == details[1..][i];
      }
    }
  }

  lemma NamesUnique(t: Tables, st: Status, a: Category, b: Category)
    requires StatusNames(t, st, a) && StatusNames(t, st, b)
    ensures a == b
  {
  }

  lemma StatusNamed(t: Tables, st: Status)
    requires TablesOk(t)
    ensures StatusCategory(t, st).Some? ==> StatusNames(t, st, StatusCategory(t, st).value)
    ensures StatusCategory(t, st).None? ==> forall cat :: !StatusNames(t, st, cat)
  {
    NamedExactly(t, st.details, st.code);
  }

  lemma StatusNamesResolve(t: Tables, st: Status, cat: Category)
    requires TablesOk(t)
    ensures
      var r := ResolveStatus(t, st);
      && (st.code !in {0, 2} && StatusNames(t, st, cat) && IsPublic(t, cat) ==>
           && r.0 == t.byCat[cat]
           && r.1 == if cat in {"invalid_argument", "unauthenticated"} then st.message else r.0.safe)
      && (st.code in {0, 2} || (forall c :: StatusNames(t, st, c) ==> !IsPublic(t, c)) ==> IsInternal(t, r))
  {
    StatusNamed(t, st);
    if StatusCategory(t, st).Some? && StatusNames(t, st, cat) {
      NamesUnique(t, st, StatusCategory(t, st).value, cat);
    }
  }

  /** A status, or a nil domain error, which reports the internal one, with no domain or
      context error before it: it resolves to the row of the category it names, and
      forwards its message if that category may speak. */
  lemma {:induction false} StatusErrorResolves(t: Tables, e: Error, k: nat, st: Status, cat: Category)
    requires TablesOk(t) && NoRealDomain(e) && NoContext(t, e)
    requires k < |Chain(e)| && forall j | 0 <= j < k :: !HasStatus(Chain(e)[j])
    requires Chain(e)[k] == StatusError(st) || (Chain(e)[k] == NilDomain && st == Status(13, "internal error", []))
    ensures
      var r := Resolve(t, e);
      && (st.code !in {0, 2} && StatusNames(t, st, cat) && IsPublic(t, cat) ==>
           && r.0 == t.byCat[cat]
           && r.1 == if cat in {"invalid_argument", "unauthenticated"} then st.message else r.0.safe)
      && (st.code in {0, 2} || (forall c :: StatusNames(t, st, c) ==> !IsPublic(t, c)) ==> IsInternal(t, r))
  {
    SearchesFollowChain(e);
    FirstOfAt(Chain(e), true, k);
    StatusNamesResolve(t, st, cat);
  }

  /** Anything else is internal. */
  lemma {:induction false} OthersResolve(t: Tables, e: Error)
    requires TablesOk(t) && NoContext(t, e)
    requires forall k | 0 <= k < |Chain(e)| :: !HasStatus(Chain(e)[k])
    ensures IsInternal(t, Resolve(t, e))
  {
    SearchesFollowChain(e);
    FirstOfNone(Chain(e), false);
    FirstOfNone(Chain(e), true);
  }

  // ---------------------------------------------------------------------------
  // Hops
  // ---------------------------------------------------------------------------

  /** The error seen on the other side of a gRPC hop. */
  function Hop(t: Tables, e: Error): Error {
    StatusError(ToStatus(t, e))
  }

  function Hops(t: Tables, e: Error, n: nat): Error {
    if n == 0 then e else Hop(t, Hops(t, e, n - 1))
  }

  /** The registries that carry every error across a hop: the internal row is
      registered or its code is unused, and a category with an empty name owns no
      code that another category shares. */
  ghost predicate HopSafe(t: Tables)
    requires TablesOk(t)
  {
    && (CAT_INTERNAL in t.byCat || CODE_INTERNAL !in t.byCode)
    && (forall k | k in t.byCat && k != "" :: t.byCode[t.byCat[k].code] != "")
  }

  /** The row an error resolves to is registered, or is the fallback for internal. */
  lemma ResolveRow(t: Tables, e: Error)
    requires TablesOk(t)
    ensures
      var (m, msg) := Resolve(t, e);
      && ((m == FALLBACK && CAT_INTERNAL !in t.byCat) || (m.category in t.byCat && t.byCat[m.category] == m))
      && (msg == m.safe || Speaks(m.category))
  {
  }

  lemma StatusResolves(t: Tables, st: Status)
    ensures Resolve(t, StatusError(st)) == ResolveStatus(t, st)
  {
  }

  /** In a safe registry a hop changes neither the row nor the message. */
  lemma {:induction false} HopKeeps(t: Tables, e: Error)
    requires TablesOk(t) && HopSafe(t)
    ensures Resolve(t, Hop(t, e)) == Resolve(t, e)
  {
    ResolveRow(t, e);
    StatusResolves(t, ToStatus(t, e));
    var (m, msg) := Resolve(t, e);
    var st := ToStatus(t, e);
    if m.category in t.byCat {
      assert NamedCategory(t, st.details, st.code) == if st.details == [] then None else Some(m.category);
      assert StatusCategory(t, st) == Some(m.category);
    }
  }

  /** In any other registry some error comes out of a hop in another category. */
  lemma {:induction false} HopLoses(t: Tables) returns (e: Error)
    requires TablesOk(t) && !HopSafe(t)
    ensures Resolve(t, Hop(t, e)).0.category != Resolve(t, e).0.category
  {
    if CAT_INTERNAL !in t.byCat && CODE_INTERNAL in t.byCode {
      e := Plain("");
    } else {
      var k :| k in t.byCat && k != "" && t.byCode[t.byCat[k].code] == "";
      e := Domain(k, "", None);
    }
    StatusResolves(t, ToStatus(t, e));
    assert NamedCategory(t, ToStatus(t, e).details, ToStatus(t, e).code).None?;
  }

  /** Such registries can be built: one row on the code of internal errors, without the
      internal category. */
  lemma {:induction false} UnsafeSeedExample()
    ensures
      var built := Build([Mapping("x", CODE_INTERNAL, 500, false, "")]);
      built.Some? && TablesOk(built.value) && !HopSafe(built.value)
  {
    var seed := [Mapping("x", CODE_INTERNAL, 500, false, "")];
    BuildExact(seed);
    OwnerIsFirst(seed, CODE_INTERNAL);
    assert forall i | 0 <= i < |seed| :: |seed[i].category| == 1;
  }

  /** Exactly the safe registries carry every error across a hop unchanged. */
  lemma {:induction false} HopExact(t: Tables)
    requires TablesOk(t)
    ensures (forall e :: Resolve(t, Hop(t, e)) == Resolve(t, e)) <==> HopSafe(t)
  {
    if HopSafe(t) {
      forall e
        ensures Resolve(t, Hop(t, e)) == Resolve(t, e)
      {
        HopKeeps(t, e);
      }
    } else {
      var e := HopLoses(t);
    }
  }

  /** Any number of hops leaves what HTTP and MCP clients see, and the status, as they were. */
  lemma {:induction false} HopsKeepReplies(t: Tables, e: Error, n: nat)
    requires TablesOk(t) && HopSafe(t)
    ensures Resolve(t, Hops(t, e, n)) == Resolve(t, e)
    ensures ToHttp(t, Hops(t, e, n)) == ToHttp(t, e)
    ensures ToMcp(t, Hops(t, e, n)) == ToMcp(t, e)
    ensures ToStatus(t, Hops(t, e, n)) == ToStatus(t, e)
  {
    if n > 0 {
      HopsKeepReplies(t, e, n - 1);
      HopKeeps(t, Hops(t, e, n - 1));
    }
  }

  /** Any seed with the internal category and no empty name builds a safe registry,
      even when categories share codes. */
  lemma {:induction false} SeedIsHopSafe(seed: seq<Mapping>)
    requires Build(seed).Some?
    requires exists i | 0 <= i < |seed| :: seed[i].category == CAT_INTERNAL
    requires forall i | 0 <= i < |seed| :: seed[i].category != ""
    ensures TablesOk(Build(seed).value) && HopSafe(Build(seed).value)
  {
    BuildExact(seed);
    var t := Build(seed).value;
    forall c | c in t.byCode
      ensures t.byCode[c] != ""
    {
      OwnerIsFirst(seed, c);
    }
  }

  /** The position of a default category, told from its length and first letter. */
  function DefaultRank(s: string): int {
    if s == [] then -1
    else match |s|
      case 16 => 0
      case 15 => 1
      case 17 => if s[0] == 'p' then 2 else 8
      case 9 => if s[0] == 'n' then 3 else 14
      case 14 => 4
      case 18 => 5
      case 19 => 6
      case 7 => 7
      case 11 => 9
      case 13 => 10
      case 8 => if s[0] == 'i' then 11 else 12
      case 12 => 13
      case _ => -1
  }

  lemma DefaultsRegistrable()
    ensures Registrable(DefaultMappings())
    ensures DefaultMappings()[11].category == CAT_INTERNAL
    ensures forall i | 0 <= i < |DefaultMappings()| :: DefaultMappings()[i].category != ""
  {
    var seed := DefaultMappings();
    assert forall i | 0 <= i < |seed| :: DefaultRank(seed[i].category) == i;
  }

  lemma RegistrableIsHopSafe(seed: seq<Mapping>, i: nat)
    requires Registrable(seed) && i < |seed| && seed[i].category == CAT_INTERNAL
    requires forall k | 0 <= k < |seed| :: seed[k].category != ""
    ensures Build(seed).Some? && TablesOk(Build(seed).value) && HopSafe(Build(seed).value)
  {
    BuildExact(seed);
    SeedIsHopSafe(seed);
  }

  /** The default table registers without a panic and is safe. */
  lemma {:induction false} DefaultIsHopSafe()
    ensures Build(DefaultMappings()).Some?
    ensures TablesOk(Build(DefaultMappings()).value) && HopSafe(Build(DefaultMappings()).value)
  {
    DefaultsRegistrable();
    RegistrableIsHopSafe(DefaultMappings(), 11);
  }

  // ---------------------------------------------------------------------------
  // What clients see with the default table
  // ---------------------------------------------------------------------------

  /** The name of a gRPC code in lower case. */
  function CodeName(code: Code): string {
    match code
    case 1 => "canceled"
    case 3 => "invalid_argument"
    case 4 => "deadline_exceeded"
    case 5 => "not_found"
    case 6 => "already_exists"
    case 7 => "permission_denied"
    case 8 => "resource_exhausted"
    case 9 => "failed_precondition"
    case 10 => "aborted"
    case 11 => "out_of_range"
    case 12 => "unimplemented"
    case 13 => "internal"
    case 14 => "unavailable"
    case 15 => "data_loss"
    case 16 => "unauthenticated"
    case _ => ""
  }

  /** The HTTP status for a gRPC code: 4xx where the request is at fault, 5xx where the
      server is. */
  function HttpOf(code: Code): int {
    match code
    case 1 => 499
    case 3 => 400
    case 4 => 504
    case 5 => 404
    case 6 => 409
    case 7 => 403
    case 8 => 429
    case 9 => 412
    case 10 => 409
    case 11 => 400
    case 12 => 501
    case 14 => 503
    case 16 => 401
    case _ => 500
  }

  /** Codes after which the same call may be tried again. */
  const RETRYABLE: set<Code> := {4, 8, 10, 14}

  /** Each row is named after its code and has the HTTP status and retryability of it. */
  lemma {:induction false} DefaultRowIs(i: nat)
    requires i < |DefaultMappings()|
    ensures
      var row := DefaultMappings()[i];
      && row.category == CodeName(row.code) && row.http == HttpOf(row.code)
      && (row.retryable <==> row.code in RETRYABLE)
  {
  }

  /** Every code that can be mapped has a row. */
  lemma {:induction false} DefaultsCoverCodes(code: Code)
    requires 1 <= code <= 16 && code != 2
    ensures exists i | 0 <= i < |DefaultMappings()| :: DefaultMappings()[i].code == code
  {
    var rows := DefaultMappings();
    assert rows[0].code == 3 && rows[1].code == 16 && rows[2].code == 7 && rows[3].code == 5 && rows[4].code == 6;
    assert rows[5].code == 8 && rows[6].code == 9 && rows[7].code == 10 && rows[8].code == 4 && rows[9].code == 14;
    assert rows[10].code == 12 && rows[11].code == 13 && rows[12].code == 1 && rows[13].code == 11 && rows[14].code == 15;
  }

  /** The three replies are made from one row and one message. */
  ghost predicate RepliesAs(t: Tables, e: Error, code: Code, message: string) {
    && ToStatus(t, e).code == code && ToStatus(t, e).message == message
    && ToHttp(t, e) == HttpReply(HttpOf(code), CodeName(code), message)
    && ToMcp(t, e) == McpReply(CodeName(code), code in RETRYABLE, message)
  }

  lemma RowReplies(t: Tables, e: Error, i: nat)
    requires i < |DefaultMappings()| && Resolve(t, e).0 == DefaultMappings()[i]
    ensures RepliesAs(t, e, DefaultMappings()[i].code, Resolve(t, e).1)
  {
    DefaultRowIs(i);
  }

  /** With the default table a domain error, however wrapped, is reported under its own
      code on all three transports, with its own message only where that is allowed. */
  lemma {:induction false} DefaultDomainReplies(e: Error, k: nat, i: nat)
    requires k < |Chain(e)| && Chain(e)[k].Domain? && forall j | 0 <= j < k :: !IsDomain(Chain(e)[j])
    requires i < |DefaultMappings()| && Chain(e)[k].cat == DefaultMappings()[i].category
    ensures Build(DefaultMappings()).Some?
    ensures
      var d, row := Chain(e)[k], DefaultMappings()[i];
      RepliesAs(Build(DefaultMappings()).value, e, row.code,
                if d.cat in {"invalid_argument", "unauthenticated"} && d.msg != "" then d.msg else row.safe)
  {
    DefaultIsHopSafe();
    BuildExact(DefaultMappings());
    DomainResolves(Build(DefaultMappings()).value, e, k);
    RowReplies(Build(DefaultMappings()).value, e, i);
  }

  /** A context error that no domain error covers is a timeout or a cancellation. */
  lemma {:induction false} DefaultContextReplies(e: Error)
    requires NoRealDomain(e)
    ensures Build(DefaultMappings()).Some?
    ensures
      var t := Build(DefaultMappings()).value;
      && (DeadlineExceeded in Chain(e) ==> RepliesAs(t, e, 4, "deadline exceeded"))
      && (DeadlineExceeded !in Chain(e) && Canceled in Chain(e) ==> RepliesAs(t, e, 1, "canceled"))
  {
    DefaultIsHopSafe();
    BuildExact(DefaultMappings());
    var t, rows := Build(DefaultMappings()).value, DefaultMappings();
    ContextResolves(t, e);
    assert t.byCat[rows[8].category] == rows[8] && t.byCat[rows[12].category] == rows[12];
    if DeadlineExceeded in Chain(e) {
      RowReplies(t, e, 8);
    } else if Canceled in Chain(e) {
      RowReplies(t, e, 12);
    }
  }

  // ---------------------------------------------------------------------------
  // Nothing internal leaks
  // ---------------------------------------------------------------------------

  function ScrubStatus(t: Tables, st: Status): Status {
    var cat := StatusCategory(t, st);
    if cat.Some? && Speaks(cat.value) then st else st.(message := "")
  }

  /** The error with every text blanked that no client may see: wrapper texts, foreign
      errors, and the messages of all domain errors and statuses but those of the
      two categories that may speak. */
  function Scrub(t: Tables, e: Error): Error
    decreases e, 1
  {
    match e
    case Domain(cat, msg, cause) =>
      Domain(cat, if Speaks(cat) then msg else "",
             match cause case None => None case Some(inner) => Some(Scrub(t, inner)))
    case StatusError(st) => StatusError(ScrubStatus(t, st))
    case Wrapped(_, causes) => Wrapped("", ScrubAll(t, causes))
    case Plain(_) => Plain("")
    case _ => e
  }

  function ScrubAll(t: Tables, es: seq<Error>): seq<Error>
    decreases es, 0
  {
    if es == [] then [] else [Scrub(t, es[0])] + ScrubAll(t, es[1..])
  }

  function ScrubFound(t: Tables, f: Found): Found {
    match f
    case FoundDomain(cat, msg) => FoundDomain(cat, if Speaks(cat) then msg else "")
    case FoundStatus(st) => FoundStatus(ScrubStatus(t, st))
    case _ => f
  }

  lemma {:induction false} ScrubFinds(t: Tables, e: Error)
    ensures FirstDomain(Scrub(t, e)) == ScrubFound(t, FirstDomain(e))
    ensures FirstStatus(Scrub(t, e)) == ScrubFound(t, FirstStatus(e))
    ensures Mentions(Scrub(t, e), DeadlineExceeded) == Mentions(e, DeadlineExceeded)
    ensures Mentions(Scrub(t, e), Canceled) == Mentions(e, Canceled)
    decreases e, 1
  {
    match e {
      case Domain(_, _, Some(inner)) => ScrubFinds(t, inner);
      case Wrapped(_, causes) => ScrubFindsIn(t, causes);
      case _ =>
    }
  }

  lemma {:induction false} ScrubFindsIn(t: Tables, es: seq<Error>)
    ensures FirstDomainIn(ScrubAll(t, es)) == ScrubFound(t, FirstDomainIn(es))
    ensures FirstStatusIn(ScrubAll(t, es)) == ScrubFound(t, FirstStatusIn(es))
    ensures MentionsIn(ScrubAll(t, es), DeadlineExceeded) == MentionsIn(es, DeadlineExceeded)
    ensures MentionsIn(ScrubAll(t, es), Canceled) == MentionsIn(es, Canceled)
    decreases es, 0
  {
    if es != [] {
      ScrubFinds(t, es[0]);
      ScrubFindsIn(t, es[1..]);
      assert ScrubAll(t, es)[1..] == ScrubAll(t, es[1..]);
    }
  }

  /** Nothing that a client may not see is left in the error. */
  predicate Blank(t: Tables, e: Error)
    decreases e, 1
  {
    match e
    case Domain(cat, msg, cause) =>
      (msg == "" || cat in {"invalid_argument", "unauthenticated"}) && (cause.Some? ==> Blank(t, cause.value))
    case StatusError(st) =>
      st.message == "" || StatusCategory(t, st) in {Some("invalid_argument"), Some("unauthenticated")}
    case Wrapped(text, causes) => text == "" && AllBlank(t, causes)
    case Plain(text) => text == ""
    case _ => true
  }

  predicate AllBlank(t: Tables, es: seq<Error>)
    decreases es, 0
  {
    es == [] || (Blank(t, es[0]) && AllBlank(t, es[1..]))
  }

  lemma {:induction false} ScrubIsBlank(t: Tables, e: Error)
    ensures Blank(t, Scrub(t, e))
    decreases e, 1
  {
    match e {
      case Domain(_, _, Some(inner)) => ScrubIsBlank(t, inner);
      case Wrapped(_, causes) => ScrubAllIsBlank(t, causes);
      case _ =>
    }
  }

  lemma {:induction false} ScrubAllIsBlank(t: Tables, es: seq<Error>)
    ensures AllBlank(t, ScrubAll(t, es))
    decreases es, 0
  {
    if es != [] {
      ScrubIsBlank(t, es[0]);
      ScrubAllIsBlank(t, es[1..]);
      assert ScrubAll(t, es)[1..] == ScrubAll(t, es[1..]);
    }
  }

  lemma ScrubStatusResolves(t: Tables, st: Status)
    requires TablesOk(t)
    ensures ResolveStatus(t, ScrubStatus(t, st)) == ResolveStatus(t, st)
  {
  }

  /** Non-interference: blanking every text a client may not see changes nothing a
      client sees, in any registry and through any wrapping. */
  lemma {:induction false} NothingLeaks(t: Tables, e: Error)
    requires TablesOk(t)
    ensures Blank(t, Scrub(t, e))
    ensures Resolve(t, Scrub(t, e)) == Resolve(t, e)
    ensures ToStatus(t, Scrub(t, e)) == ToStatus(t, e)
  {
    ScrubIsBlank(t, e);
    ScrubFinds(t, e);
    match FirstStatus(e) {
      case FoundStatus(st) => ScrubStatusResolves(t, st);
      case _ =>
    }
  }
}

/** How the circuit breaker judges a completed call. */
module CallVerdict {
  import opened Common
  import opened ErrorRegistry
  import CircuitBreaker

  function Classify(t: Tables, ctxDone: bool, e: Option<Error>): CircuitBreaker.Outcome {
    if ctxDone then CircuitBreaker.Neutral
    else if e.None? then CircuitBreaker.Success
    else
      var code := ToStatus(t, e.value).code;
      if code == CODE_UNAVAILABLE || code == CODE_INTERNAL || code == CODE_DEADLINE_EXCEEDED then CircuitBreaker.Failure
      else if code == CODE_CANCELED || code == CODE_INVALID_ARGUMENT || code == CODE_UNAUTHENTICATED || code == CODE_PERMISSION_DENIED
      then CircuitBreaker.Neutral
      else CircuitBreaker.Success
  }

  /** A server in the middle judges a call as the one behind it does: the verdict of
      an error survives any number of hops. */
  lemma {:induction false} VerdictSurvivesHops(t: Tables, ctxDone: bool, e: Error, n: nat)
    requires TablesOk(t) && HopSafe(t)
    ensures Classify(t, ctxDone, Some(Hops(t, e, n))) == Classify(t, ctxDone, Some(e))
  {
    HopsKeepReplies(t, e, n);
  }

  /** The default categories that say something about the client, and about the server. */
  const CLIENT_FAULTS: set<Category> := {CAT_INVALID_ARGUMENT, CAT_UNAUTHENTICATED, "permission_denied", CAT_CANCELED}
  const SERVER_FAULTS: set<Category> := {CAT_INTERNAL, CAT_DEADLINE_EXCEEDED, "unavailable"}

  lemma RowResolves(seed: seq<Mapping>, row: Mapping, e: Error, msg: string)
    requires Build(seed).Some? && row in seed && FirstDomain(e) == FoundDomain(row.category, msg)
    ensures ToStatus(Build(seed).value, e).code == row.code
  {
    BuildExact(seed);
    var i :| 0 <= i < |seed| && seed[i] == row;
    assert Build(seed).value.byCat[seed[i].category] == row;
  }

  lemma FaultRanks(cat: Category)
    ensures cat in CLIENT_FAULTS ==> DefaultRank(cat) in {0, 1, 2, 12}
    ensures cat in SERVER_FAULTS ==> DefaultRank(cat) in {8, 9, 11}
  {
  }

  lemma DefaultAt(i: nat)
    requires i < |DefaultMappings()|
    ensures
      var row := DefaultMappings()[i];
      && DefaultRank(row.category) == i
      && (i in {0, 1, 2, 12} <==> row.code in {CODE_CANCELED, CODE_INVALID_ARGUMENT, CODE_UNAUTHENTICATED, CODE_PERMISSION_DENIED})
      && (i in {8, 9, 11} <==> row.code in {CODE_UNAVAILABLE, CODE_INTERNAL, CODE_DEADLINE_EXCEEDED})
      && (i in {0, 1, 2, 12} ==> row.category in CLIENT_FAULTS)
      && (i in {8, 9, 11} ==> row.category in SERVER_FAULTS)
  {
  }

  lemma DefaultCodes(row: Mapping)
    requires row in DefaultMappings()
    ensures row.category in CLIENT_FAULTS <==>
      row.code in {CODE_CANCELED, CODE_INVALID_ARGUMENT, CODE_UNAUTHENTICATED, CODE_PERMISSION_DENIED}
    ensures row.category in SERVER_FAULTS <==>
      row.code in {CODE_UNAVAILABLE, CODE_INTERNAL, CODE_DEADLINE_EXCEEDED}
  {
    var i :| 0 <= i < |DefaultMappings()| && DefaultMappings()[i] == row;
    DefaultAt(i);
    FaultRanks(row.category);
  }

  /** With the default table and a live request: a domain error, however wrapped, counts
      against the method exactly when its category is a server fault, and moves neither
      phase nor failure count, in any state of any breaker, when it is a client fault. */
  lemma VerdictFollowsCategory(row: Mapping, e: Error, msg: string, c: CircuitBreaker.Config,
                               b: CircuitBreaker.State, adm: CircuitBreaker.Admission, now: nat)
    requires row in DefaultMappings() && FirstDomain(e) == FoundDomain(row.category, msg)
    ensures Build(DefaultMappings()).Some?
    ensures
      var t := Build(DefaultMappings()).value;
      var out := Classify(t, false, Some(e));
      && (out == CircuitBreaker.Failure <==> row.category in SERVER_FAULTS)
      && (out == CircuitBreaker.Neutral <==> row.category in CLIENT_FAULTS)
      && (row.category in CLIENT_FAULTS ==>
           CircuitBreaker.RecordStep(c, b, adm, out, now).(probes := b.probes) == b)
  {
    DefaultIsHopSafe();
    RowResolves(DefaultMappings(), row, e, msg);
    DefaultCodes(row);
  }

  /** With the default table and a live request, a deadline that expired further down
      counts against the method, and a cancellation does not count. */
  lemma {:induction false} VerdictOnContext(e: Error)
    requires NoRealDomain(e)
    ensures Build(DefaultMappings()).Some?
    ensures
      var t := Build(DefaultMappings()).value;
      && (DeadlineExceeded in Chain(e) ==> Classify(t, false, Some(e)) == CircuitBreaker.Failure)
      && (DeadlineExceeded !in Chain(e) && Canceled in Chain(e) ==> Classify(t, false, Some(e)) == CircuitBreaker.Neutral)
  {
    DefaultContextReplies(e);
  }

  /** A call whose caller has walked away moves neither phase nor failure count, whatever
      it returned; a call without an error clears the count of its closed episode. */
  lemma {:induction false} VerdictWithoutError(t: Tables, e: Option<Error>, c: CircuitBreaker.Config,
                                               b: CircuitBreaker.State, adm: CircuitBreaker.Admission, now: nat)
    ensures
      var out := Classify(t, true, e);
      CircuitBreaker.RecordStep(c, b, adm, out, now).(probes := b.probes) == b
    ensures
      var out := Classify(t, false, None);
      && out == CircuitBreaker.Success
      && (b.phase == CircuitBreaker.Closed && !adm.probe && adm.gen == b.gen ==>
           CircuitBreaker.RecordStep(c, b, adm, out, now) == b.(failures := 0))
      && (b.phase == CircuitBreaker.HalfOpen && adm.probe && adm.gen == b.gen ==>
           CircuitBreaker.RecordStep(c, b, adm, out, now).phase == CircuitBreaker.Closed)
  {
  }
}
