/** The Jira Service Management provider: decoding a parsed body, extracting the custom fields and
    deciding what to do (internal/webhook/jsm/payload.go, extract.go, provider.go). */
module Jsm {
  import opened Basics
  import opened Resource

  datatype Json =
    | JNull
    | JBool(b: bool)
    | JNum(n: int)
    | JStr(s: string)
    | JArr(items: seq<Json>)
    | JObj(fields: map<string, Json>)

  datatype Ticket = Ticket(key: string, status: string, customFields: map<string, Json>)

  datatype DecodeError = InvalidJson | MissingIssue | MissingIssueKey | MissingStatus
  datatype FieldError = FieldMissing | FieldEmpty | FieldType

  datatype Result<T, E> = Ok(value: T) | Err(error: E)

  datatype Config = Config(
    triggerStatus: string,
    fieldProviderGroupId: string,
    fieldRole: string,
    fieldProject: string,
    identityProviderId: string,
    namespace: string)

  // ---- Decoding -----------------------------------------------------------

  /** A Go string field filled from an object member: absent and null leave it empty. */
  function StringMember(fields: map<string, Json>, name: string): Option<string> {
    if name !in fields || fields[name].JNull? then Some("")
    else if fields[name].JStr? then Some(fields[name].s)
    else None
  }

  /** `json.Unmarshal` into the Status struct. */
  function StatusName(status: Json): Option<string> {
    match status
    case JNull => Some("")
    case JObj(fields) => StringMember(fields, "name")
    case _ => None
  }

  /** `IssueFields.UnmarshalJSON`: the status name and every member but the status. */
  function DecodeFields(fields: Json): Option<(string, map<string, Json>)> {
    match fields
    case JNull => Some(("", map[]))
    case JObj(raw) =>
      if "status" !in raw then Some(("", raw))
      else
        var name := StatusName(raw["status"]);
        if name.None? then None else Some((name.value, raw - {"status"}))
    case _ => None
  }

  /** `Decode`, from the parsed body; None stands for bytes that are not JSON. */
  function Decode(body: Option<Json>): Result<Ticket, DecodeError> {
    match body
    case None => Err(InvalidJson)
    case Some(JNull) => Err(MissingIssue)
    case Some(JObj(top)) =>
      if "issue" !in top || top["issue"].JNull? then Err(MissingIssue)
      else if !top["issue"].JObj? then Err(InvalidJson)
      else
        var issue := top["issue"].fields;
        var key := StringMember(issue, "key");
        var fields := if "fields" in issue then DecodeFields(issue["fields"]) else Some(("", map[]));
        if key.None? || fields.None? then Err(InvalidJson)
        else if key.value == "" then Err(MissingIssueKey)
        else if fields.value.0 == "" then Err(MissingStatus)
        else Ok(Ticket(key.value, fields.value.0, fields.value.1))
    case Some(_) => Err(InvalidJson)
  }

  /** `ExtractString`. */
  function ExtractString(t: Ticket, id: string): Result<string, FieldError> {
    if id !in t.customFields || t.customFields[id].JNull? then Err(FieldMissing)
    else if !t.customFields[id].JStr? then Err(FieldType)
    else if Trim(t.customFields[id].s) == "" then Err(FieldEmpty)
    else Ok(Trim(t.customFields[id].s))
  }

  // ---- Deciding -----------------------------------------------------------

  /** What the provider hands to the executor: the object to apply before the executor's own stamps. */
  datatype Action = Action(key: Key, spec: Spec, annotations: map<string, string>, source: string)

  datatype Sentinel = ErrBadRequest | ErrUnprocessable
  datatype ParseReason = ReasonInvalidJson | ReasonMissing | ReasonEmpty | ReasonType

  datatype Decision =
    | Apply(act: Action)
    | NoAction
    | Refuse(sentinel: Sentinel, reason: ParseReason)

  const ANNOTATION_ISSUE := "webhookd.io/jsm-issue-key"

  function RefuseDecode(e: DecodeError): Decision {
    Refuse(ErrBadRequest, if e == InvalidJson then ReasonInvalidJson else ReasonMissing)
  }

  /** `classifyExtractErr` with `extractReason`. */
  function RefuseField(e: FieldError): Decision {
    match e
    case FieldMissing => Refuse(ErrBadRequest, ReasonMissing)
    case FieldEmpty => Refuse(ErrBadRequest, ReasonEmpty)
    case FieldType => Refuse(ErrUnprocessable, ReasonType)
  }

  /** `Handle`; the counter it bumps is a function of the decision. */
  function Handle(c: Config, body: Option<Json>): Decision {
    match Decode(body)
    case Err(e) => RefuseDecode(e)
    case Ok(t) =>
      if t.status != c.triggerStatus then NoAction
      else
        match ExtractString(t, c.fieldProviderGroupId)
        case Err(e) => RefuseField(e)
        case Ok(group) =>
          match ExtractString(t, c.fieldRole)
          case Err(e) => RefuseField(e)
          case Ok(role) =>
            match ExtractString(t, c.fieldProject)
            case Err(e) => RefuseField(e)
            case Ok(project) =>
              Apply(Action(
                      Key(c.namespace, CRName(t.key)),
                      BuildSpec(group, role, project, c.identityProviderId, BuildDescription(t.key)),
                      map[ANNOTATION_ISSUE := t.key],
                      "jsm"))
  }

  // ---- What a body must look like, read straight off the JSON tree ----------

  /** The value at a path of member names. */
  function At(j: Json, path: seq<string>): Option<Json> {
    if path == [] then Some(j)
    else if j.JObj? && path[0] in j.fields then At(j.fields[path[0]], path[1..])
    else None
  }

  ghost predicate TextAt(j: Json, path: seq<string>, text: string) {
    At(j, path) == Some(JStr(text))
  }

  function FieldPath(id: string): seq<string> { ["issue", "fields", id] }

  /** The configured member holds a string that is not blank. */
  predicate Filled(j: Json, id: string) {
    var v := At(j, FieldPath(id));
    id != "status" && v.Some? && v.value.JStr? && Trim(v.value.s) != ""
  }

  /** The configured member holds something that is neither null nor a string. */
  predicate Mistyped(j: Json, id: string) {
    var v := At(j, FieldPath(id));
    id != "status" && v.Some? && !v.value.JNull? && !v.value.JStr?
  }

  /** The configured member holds a blank string. */
  predicate Emptied(j: Json, id: string) {
    var v := At(j, FieldPath(id));
    id != "status" && v.Some? && v.value.JStr? && Blank(v.value.s)
  }

  /** The ticket names itself and is in the trigger status. */
  ghost predicate Triggered(c: Config, j: Json) {
    && (exists key :: TextAt(j, ["issue", "key"], key) && key != "")
    && TextAt(j, ["issue", "fields", "status", "name"], c.triggerStatus) && c.triggerStatus != ""
  }

  function Text(j: Json, id: string): string
    requires Filled(j, id)
  {
    Trim(At(j, FieldPath(id)).value.s)
  }

  lemma AtUnfolds(j: Json, a: string, rest: seq<string>)
    ensures At(j, [a] + rest) == if j.JObj? && a in j.fields then At(j.fields[a], rest) else None
  {
    assert ([a] + rest)[1..] == rest;
  }

  lemma IssuePaths(j: Json, id: string)
    ensures At(j, ["issue"]) == if j.JObj? && "issue" in j.fields then Some(j.fields["issue"]) else None
    ensures At(j, ["issue", "key"]) ==
            if At(j, ["issue"]).Some? then At(At(j, ["issue"]).value, ["key"]) else None
    ensures At(j, FieldPath(id)) ==
            if At(j, ["issue"]).Some? then At(At(j, ["issue"]).value, ["fields", id]) else None
    ensures At(j, ["issue", "fields", "status", "name"]) ==
            if At(j, ["issue"]).Some? then At(At(j, ["issue"]).value, ["fields", "status", "name"]) else None
  {
    AtUnfolds(j, "issue", []);
    AtUnfolds(j, "issue", ["key"]);
    AtUnfolds(j, "issue", ["fields", id]);
    AtUnfolds(j, "issue", ["fields", "status", "name"]);
    assert ["issue"] + [] == ["issue"];
    assert ["issue"] + ["key"] == ["issue", "key"];
    assert ["issue"] + ["fields", id] == FieldPath(id);
    assert ["issue"] + ["fields", "status", "name"] == ["issue", "fields", "status", "name"];
  }

  lemma MemberPaths(issue: Json, id: string)
    ensures At(issue, ["key"]) == if issue.JObj? && "key" in issue.fields then Some(issue.fields["key"]) else None
    ensures At(issue, ["fields", id]) ==
            if issue.JObj? && "fields" in issue.fields && issue.fields["fields"].JObj?
               && id in issue.fields["fields"].fields
            then Some(issue.fields["fields"].fields[id]) else None
    ensures At(issue, ["fields", "status", "name"]) ==
            if issue.JObj? && "fields" in issue.fields && issue.fields["fields"].JObj?
               && "status" in issue.fields["fields"].fields
            then At(issue.fields["fields"].fields["status"], ["name"]) else None
    ensures forall st: Json ::
              At(st, ["name"]) == if st.JObj? && "name" in st.fields then Some(st.fields["name"]) else None
  {
    AtUnfolds(issue, "key", []);
    assert ["key"] + [] == ["key"];
    AtUnfolds(issue, "fields", [id]);
    assert ["fields"] + [id] == ["fields", id];
    AtUnfolds(issue, "fields", ["status", "name"]);
    assert ["fields"] + ["status", "name"] == ["fields", "status", "name"];
    if issue.JObj? && "fields" in issue.fields {
      AtUnfolds(issue.fields["fields"], id, []);
      assert [id] + [] == [id];
      AtUnfolds(issue.fields["fields"], "status", ["name"]);
      assert ["status"] + ["name"] == ["status", "name"];
    }
    forall st: Json
      ensures At(st, ["name"]) == if st.JObj? && "name" in st.fields then Some(st.fields["name"]) else None
    {
      AtUnfolds(st, "name", []);
      assert ["name"] + [] == ["name"];
    }
  }

  /** Decoding succeeds exactly on a named ticket with a status, and reads those two texts. */
  lemma DecodeReadsTree(j: Json)
    ensures Decode(Some(j)).Ok? <==>
            && (exists key :: TextAt(j, ["issue", "key"], key) && key != "")
            && (exists st :: TextAt(j, ["issue", "fields", "status", "name"], st) && st != "")
    ensures Decode(Some(j)).Ok? ==>
            && TextAt(j, ["issue", "key"], Decode(Some(j)).value.key)
            && TextAt(j, ["issue", "fields", "status", "name"], Decode(Some(j)).value.status)
  {
    IssuePaths(j, "");
    if j.JObj? && "issue" in j.fields {
      MemberPaths(j.fields["issue"], "");
    }
    if Decode(Some(j)).Ok? {
      assert TextAt(j, ["issue", "key"], Decode(Some(j)).value.key);
      assert TextAt(j, ["issue", "fields", "status", "name"], Decode(Some(j)).value.status);
    }
  }

  /** A decoded ticket's custom fields are the tree's members, the status left out. */
  lemma DecodeReadsFields(j: Json, id: string)
    requires Decode(Some(j)).Ok?
    ensures var t := Decode(Some(j)).value;
            && (id in t.customFields <==> id != "status" && At(j, FieldPath(id)).Some?)
            && (id in t.customFields ==> At(j, FieldPath(id)) == Some(t.customFields[id]))
  {
    IssuePaths(j, id);
    MemberPaths(j.fields["issue"], id);
  }

  lemma ExtractReadsTree(j: Json, id: string)
    requires Decode(Some(j)).Ok?
    ensures var r := ExtractString(Decode(Some(j)).value, id);
            && (r.Ok? <==> Filled(j, id))
            && (r.Ok? ==> r.value == Text(j, id))
            && (r == Err(FieldType) <==> Mistyped(j, id))
            && (r == Err(FieldEmpty) <==> Emptied(j, id))
  {
    DecodeReadsFields(j, id);
  }

  /** What is extracted is the stretch of the member's text between its outer blanks. */
  lemma ExtractTrims(j: Json, id: string) returns (t: string)
    requires Decode(Some(j)).Ok? && ExtractString(Decode(Some(j)).value, id).Ok?
    ensures var r := ExtractString(Decode(Some(j)).value, id).value;
            TextAt(j, FieldPath(id), t) && BetweenBlanks(t, r) && NoBlankEnds(r) && r != ""
  {
    ExtractReadsTree(j, id);
    t := At(j, FieldPath(id)).value.s;
  }

  predicate AllFilled(c: Config, j: Json) {
    Filled(j, c.fieldProviderGroupId) && Filled(j, c.fieldRole) && Filled(j, c.fieldProject)
  }

  /** The spec a ticket asks for, field by field. */
  function TicketSpec(c: Config, j: Json, key: string): (r: Spec)
    requires AllFilled(c, j)
    ensures r == BuildSpec(Text(j, c.fieldProviderGroupId), Text(j, c.fieldRole), Text(j, c.fieldProject),
                           c.identityProviderId, BuildDescription(key))
  {
    Spec(identityProviderId := c.identityProviderId,
         providerGroupId := Text(j, c.fieldProviderGroupId),
         description := "Provisioned from JSM " + key,
         roleName := Text(j, c.fieldRole),
         projectNames := [Text(j, c.fieldProject)])
  }

  /** The action is named, specified and annotated by the ticket with this issue key. */
  ghost predicate Says(c: Config, j: Json, key: string, act: Action) {
    && TextAt(j, ["issue", "key"], key) && key != ""
    && act.key == Key(c.namespace, "jsm-" + ToLower(key))
    && AllFilled(c, j) && act.spec == TicketSpec(c, j, key)
    && act.annotations == map["webhookd.io/jsm-issue-key" := key]
    && act.source == "jsm"
  }

  lemma AppliesWhenFilled(c: Config, j: Json)
    ensures Handle(c, Some(j)).Apply? <==> Triggered(c, j) && AllFilled(c, j)
  {
    DecodeReadsTree(j);
    if Decode(Some(j)).Ok? {
      ExtractReadsTree(j, c.fieldProviderGroupId);
      ExtractReadsTree(j, c.fieldRole);
      ExtractReadsTree(j, c.fieldProject);
    }
  }

  lemma ActionSays(c: Config, j: Json)
    requires Handle(c, Some(j)).Apply?
    ensures Decode(Some(j)).Ok? && Says(c, j, Decode(Some(j)).value.key, Handle(c, Some(j)).act)
  {
    DecodeReadsTree(j);
    ExtractReadsTree(j, c.fieldProviderGroupId);
    ExtractReadsTree(j, c.fieldRole);
    ExtractReadsTree(j, c.fieldProject);
  }

  lemma SaysFits(c: Config, j: Json, key: string, act: Action)
    requires Says(c, j, key, act)
    ensures FitsSchema(act.spec) <==> c.identityProviderId != ""
  {
  }

  /** The provider applies exactly the triggered tickets with three filled fields, and applies what they say. */
  lemma AppliesExactlyFilledTickets(c: Config, j: Json)
    ensures Handle(c, Some(j)).Apply? <==> Triggered(c, j) && AllFilled(c, j)
    ensures Handle(c, Some(j)).Apply? ==>
            exists key :: Says(c, j, key, Handle(c, Some(j)).act)
    ensures Handle(c, Some(j)).Apply? ==>
            (FitsSchema(Handle(c, Some(j)).act.spec) <==> c.identityProviderId != "")
  {
    AppliesWhenFilled(c, j);
    if Handle(c, Some(j)).Apply? {
      ActionSays(c, j);
      SaysFits(c, j, Decode(Some(j)).value.key, Handle(c, Some(j)).act);
    }
  }

  /** 400 against 422: on a triggered ticket the first field that is not filled decides. */
  lemma FirstBadFieldDecides(c: Config, j: Json)
    requires Triggered(c, j)
    ensures Handle(c, Some(j)).Refuse? ==>
            var bad := if !Filled(j, c.fieldProviderGroupId) then c.fieldProviderGroupId
                       else if !Filled(j, c.fieldRole) then c.fieldRole
                       else c.fieldProject;
            && !Filled(j, bad) && (Handle(c, Some(j)).sentinel == ErrUnprocessable <==> Mistyped(j, bad))
            && Handle(c, Some(j)).reason == if Mistyped(j, bad) then ReasonType
                                            else if Emptied(j, bad) then ReasonEmpty else ReasonMissing
    ensures Handle(c, Some(j)) != NoAction
  {
    DecodeReadsTree(j);
    if Decode(Some(j)).Ok? {
      ExtractReadsTree(j, c.fieldProviderGroupId);
      ExtractReadsTree(j, c.fieldRole);
      ExtractReadsTree(j, c.fieldProject);
    }
  }

  /** The value at the path is absent, null or of the expected type. */
  ghost predicate Fits(j: Json, path: seq<string>, text: bool) {
    var v := At(j, path);
    v.None? || v.value.JNull? || (if text then v.value.JStr? else v.value.JObj?)
  }

  /** Every member `Decode` looks at has the type it is decoded into, so that at worst something is missing. */
  ghost predicate Shaped(j: Json) {
    && Fits(j, [], false) && Fits(j, ["issue"], false) && Fits(j, ["issue", "key"], true)
    && Fits(j, ["issue", "fields"], false) && Fits(j, ["issue", "fields", "status"], false)
    && Fits(j, ["issue", "fields", "status", "name"], true)
  }

  lemma ShapePaths(j: Json)
    ensures At(j, []) == Some(j)
    ensures At(j, ["issue", "fields"]) ==
            if At(j, ["issue"]).Some? then Member(At(j, ["issue"]).value, "fields") else None
    ensures At(j, ["issue", "fields", "status"]) ==
            if At(j, ["issue", "fields"]).Some? then Member(At(j, ["issue", "fields"]).value, "status") else None
  {
    AtUnfolds(j, "issue", []);
    AtUnfolds(j, "issue", ["fields"]);
    AtUnfolds(j, "issue", ["fields", "status"]);
    assert ["issue"] + [] == ["issue"] && ["issue"] + ["fields"] == ["issue", "fields"];
    assert ["issue"] + ["fields", "status"] == ["issue", "fields", "status"];
    if At(j, ["issue"]).Some? {
      var issue := At(j, ["issue"]).value;
      AtUnfolds(issue, "fields", []);
      AtUnfolds(issue, "fields", ["status"]);
      assert ["fields"] + [] == ["fields"] && ["fields"] + ["status"] == ["fields", "status"];
      if Member(issue, "fields").Some? {
        AtUnfolds(Member(issue, "fields").value, "status", []);
        assert ["status"] + [] == ["status"];
      }
    }
  }

  function Member(j: Json, name: string): Option<Json> {
    if j.JObj? && name in j.fields then Some(j.fields[name]) else None
  }

  lemma InvalidIsMisshapen(j: Json)
    ensures Decode(Some(j)) == Err(InvalidJson) <==> !Shaped(j)
  {
    ShapePaths(j);
    IssuePaths(j, "status");
    if j.JObj? && "issue" in j.fields {
      MemberPaths(j.fields["issue"], "status");
    }
  }

  /** Off the trigger: no action on any ticket with another status, a 400 on everything that is no ticket. */
  lemma UntriggeredIsNoopOrBadRequest(c: Config, j: Json)
    requires !Triggered(c, j)
    ensures Handle(c, Some(j)) == NoAction <==> Decode(Some(j)).Ok?
    ensures Handle(c, Some(j)) != NoAction ==>
            Handle(c, Some(j)) == Refuse(ErrBadRequest, if Shaped(j) then ReasonMissing else ReasonInvalidJson)
    ensures Handle(c, None) == Refuse(ErrBadRequest, ReasonInvalidJson)
  {
    DecodeReadsTree(j);
    InvalidIsMisshapen(j);
  }
}
