/**
 * The audit/soft-delete interceptor (middleware/prisma.intercepter.js): a
 * rewrite of every call's parameters before the store sees them. Creations
 * get a new id, a creation time and the acting user; updates by a known
 * user get `updated_by`/`updated_at`; deletions by a known user get their
 * data replaced by the soft-delete fields. Nothing here can fail: whatever
 * goes wrong, the (possibly rewritten) parameters are passed on.
 *
 * The clock, the ISO formatting of an instant (`iso`) and the id generator
 * (`newId`, the i-th id it hands out) are parameters. The acting user is
 * passed in explicitly; `ResolveActor` derives it from the request.
 */
module AuditInterceptor {
  import opened Wrappers
  import opened CurrentUser

  /** A JSON-like value, as found in the data of a store call. */
  datatype Value =
    | Null
    | Bool(b: bool)
    | Num(n: int)
    | Str(s: string)
    | Record(fields: map<string, Value>)
    | List(items: seq<Value>)

  /** `params.args`: the `data` to write (`None` when absent) and every other argument (`where`, `include`, ...). */
  datatype Args = Args(data: Option<Value>, rest: map<string, Value>)

  /** The parameters of one store call; `args` is `None` when the call has none. */
  datatype Params = Params(model: string, action: string, args: Option<Args>)

  /** The offset of the reporting time zone, UTC+7, in milliseconds. */
  const UtcPlus7Ms: int := 7 * 60 * 60 * 1000

  /** JavaScript truthiness of an optional value. */
  predicate Truthy(v: Option<Value>) {
    match v
    case None => false
    case Some(Null) => false
    case Some(Bool(b)) => b
    case Some(Num(n)) => n != 0
    case Some(Str(s)) => s != ""
    case Some(_) => true
  }

  /** A truthy user id (`if (userId)`). */
  predicate HasActor(actor: Option<string>) {
    actor.Some? && actor.value != ""
  }

  /** `userId || null`. */
  function ActorValue(actor: Option<string>): (r: Value)
    ensures HasActor(actor) ==> r == Str(actor.value)
    ensures !HasActor(actor) ==> r == Null
  {
    if HasActor(actor) then Str(actor.value) else Null
  }

  /** The fields that `{ ...data }` copies; only a record contributes any. */
  function Spread(data: Option<Value>): map<string, Value> {
    match data
    case Some(Record(fields)) => fields
    case _ => map[]
  }

  /** The audit columns a creation sets. */
  const CreationKeys: set<string> :=
    {"id", "created_at", "created_by", "updated_at", "updated_by", "is_deleted", "deleted_by", "deleted_at"}

  /** `{ ...data, id, created_at, created_by, updated_at: null, ... }` for one record. */
  function StampCreated(data: Option<Value>, id: string, time: string, actor: Option<string>): (r: Value)
    ensures r.Record?
    ensures r.fields.Keys == Spread(data).Keys + CreationKeys
    ensures forall k :: k in Spread(data) && k !in CreationKeys ==> r.fields[k] == Spread(data)[k]
    ensures r.fields["id"] == Str(id) && r.fields["created_at"] == Str(time)
    ensures r.fields["created_by"] == ActorValue(actor)
    ensures r.fields["updated_at"] == Null && r.fields["updated_by"] == Null
    ensures r.fields["deleted_by"] == Null && r.fields["deleted_at"] == Null
    ensures r.fields["is_deleted"] == Bool(false)
  {
    Record(Spread(data) + map[
      "id" := Str(id),
      "created_at" := Str(time),
      "created_by" := ActorValue(actor),
      "updated_at" := Null,
      "updated_by" := Null,
      "is_deleted" := Bool(false),
      "deleted_by" := Null,
      "deleted_at" := Null])
  }

  /** The `map` of `createMany`: item i is stamped like a single creation, with the i-th new id. */
  function StampCreatedAll(items: seq<Value>, newId: nat -> string, time: string, actor: Option<string>): (r: seq<Value>)
    ensures |r| == |items|
    ensures forall i :: 0 <= i < |items| ==> r[i] == StampCreated(Some(items[i]), newId(i), time, actor)
  {
    seq(|items|, i requires 0 <= i < |items| => StampCreated(Some(items[i]), newId(i), time, actor))
  }

  /**
   * The data an update by a known user writes: `updated_by` and
   * `updated_at` added to (or overwritten in) a record, on an empty record
   * when the data is falsy. `None` when the assignment throws (a truthy
   * value that cannot take properties) or for a list, which the model does
   * not cover.
   */
  function StampUpdated(data: Option<Value>, actor: string, time: string): (r: Option<Value>)
    ensures !Truthy(data) ==> r == Some(Record(map["updated_by" := Str(actor), "updated_at" := Str(time)]))
    ensures Truthy(data) && data.value.Record? ==>
              && r.Some? && r.value.Record?
              && r.value.fields.Keys == data.value.fields.Keys + {"updated_by", "updated_at"}
              && r.value.fields["updated_by"] == Str(actor) && r.value.fields["updated_at"] == Str(time)
              && forall k :: k in data.value.fields && k !in {"updated_by", "updated_at"} ==>
                   r.value.fields[k] == data.value.fields[k]
    ensures Truthy(data) && !data.value.Record? ==> r.None?
  {
    if !Truthy(data) then Some(Record(map["updated_by" := Str(actor), "updated_at" := Str(time)]))
    else
      match data.value
      case Record(fields) => Some(Record(fields["updated_by" := Str(actor)]["updated_at" := Str(time)]))
      case _ => None
  }

  /** The data a delete by a known user carries afterwards. */
  function SoftDeleteData(actor: string, time: string): (r: Value)
    ensures r.Record? && r.fields.Keys == {"is_deleted", "deleted_by", "deleted_at"}
    ensures r.fields["is_deleted"] == Bool(true)
    ensures r.fields["deleted_by"] == Str(actor) && r.fields["deleted_at"] == Str(time)
  {
    Record(map["is_deleted" := Bool(true), "deleted_by" := Str(actor), "deleted_at" := Str(time)])
  }

  predicate IsAuditedAction(action: string) {
    action in {"create", "createMany", "update", "updateMany", "delete", "deleteMany"}
  }

  /**
   * The first `$use` middleware: the parameters passed to `next`. A call
   * without `args` throws inside the `try` on every audited action and so
   * is passed on unchanged.
   */
  function Intercept(p: Params, actor: Option<string>, nowMs: int, iso: int -> string, newId: nat -> string): (r: Params)
    ensures r.model == p.model && r.action == p.action
    ensures r.args.Some? == p.args.Some?
    ensures r.args.Some? ==> r.args.value.rest == p.args.value.rest
    ensures p.args.None? || !IsAuditedAction(p.action) ==> r == p
    ensures p.action in {"update", "updateMany", "delete", "deleteMany"} && !HasActor(actor) ==> r == p
    ensures p.action == "create" && p.args.Some? ==>
              r.args.value.data == Some(StampCreated(p.args.value.data, newId(0), iso(nowMs + 25_200_000), actor))
    ensures p.action == "createMany" && p.args.Some? ==>
              match p.args.value.data
              case Some(List(items)) =>
                r.args.value.data == Some(List(StampCreatedAll(items, newId, iso(nowMs + 25_200_000), actor)))
              case _ => r == p
    ensures p.action in {"update", "updateMany"} && p.args.Some? && HasActor(actor) ==>
              match StampUpdated(p.args.value.data, actor.value, iso(nowMs + 25_200_000))
              case Some(d) => r.args.value.data == Some(d)
              case None => r == p
    ensures p.action in {"delete", "deleteMany"} && p.args.Some? && HasActor(actor) ==>
              r.args.value.data == Some(SoftDeleteData(actor.value, iso(nowMs + 25_200_000)))
  {
    if p.args.None? then p
    else
      var args := p.args.value;
      var time := iso(nowMs + UtcPlus7Ms);
      if p.action == "create" then
        p.(args := Some(args.(data := Some(StampCreated(args.data, newId(0), time, actor)))))
      else if p.action == "createMany" then
        match args.data
        case Some(List(items)) => p.(args := Some(args.(data := Some(List(StampCreatedAll(items, newId, time, actor))))))
        case _ => p
      else if p.action == "update" || p.action == "updateMany" then
        if !HasActor(actor) then p
        else
          match StampUpdated(args.data, actor.value, time)
          case Some(d) => p.(args := Some(args.(data := Some(d))))
          case None => p
      else if p.action == "delete" || p.action == "deleteMany" then
        if !HasActor(actor) then p
        else p.(args := Some(args.(data := Some(SoftDeleteData(actor.value, time)))))
      else p
  }

  /** With an id generator that never repeats itself, every record of a `createMany` gets its own id. */
  lemma CreateManyIdsDistinct(items: seq<Value>, newId: nat -> string, time: string, actor: Option<string>)
    requires forall i, j :: 0 <= i < j ==> newId(i) != newId(j)
    ensures var out := StampCreatedAll(items, newId, time, actor);
            forall i, j :: 0 <= i < j < |out| ==> out[i].fields["id"] != out[j].fields["id"]
  {
  }

  /**
   * The acting user: none without a request in context, and none when
   * `getCurrentUser` throws (the error is swallowed); otherwise the id it
   * returns.
   */
  function ResolveActor(authorization: Option<Option<string>>, verify: Option<string> -> Result<Claims, string>)
    : (r: Option<string>)
    ensures authorization.None? ==> r.None?
    ensures authorization.Some? && GetCurrentUser(authorization.value, verify).Err? ==> r.None?
    ensures authorization.Some? && GetCurrentUser(authorization.value, verify).Ok? ==>
              r == GetCurrentUser(authorization.value, verify).value
  {
    match authorization
    case None => None
    case Some(header) =>
      match GetCurrentUser(header, verify)
      case Ok(id) => id
      case Err(_) => None
  }
}
