/** The organization controller: how each handler turns the validation
    result and the service's outcome into an HTTP status and a JSON body. */
module Controller {
  import opened Wrappers
  import opened Text
  import opened JsonValue
  import opened Dto
  import opened Entity
  import opened Repository
  import opened Validation
  import opened Service

  const CreatedMessage := "Organization created successfully"
  const FetchAllFailed := "Failed to fetch organizations"
  const FetchStatsFailed := "Failed to fetch statistics"
  const FetchActiveFailed := "Failed to fetch active organizations"
  const SearchFailed := "Failed to search organizations"
  const NameParameterRequired := "Name parameter is required"
  const CreateFailed := "Failed to create organization"

  /** What a successful handler spreads into or nests under `data`. */
  datatype Payload =
    | Listing(list: ListResult)
    | Found(search: SearchResult)
    | Statistics(stats: Stats)
    | Created(record: OrganizationRecord)

  /** `{ success: true, ...payload, message? }` or `{ success: false, error }`. */
  datatype Body = Ok(payload: Payload, message: Option<string>) | Err(error: string) {
    predicate Success() { Ok? }
  }

  datatype Response = Response(status: int, body: Body)

  /** The handler's own failure response for a thrown error. */
  function ServerError(message: string): Response {
    Response(500, Err(message))
  }

  /** GET /: the service's list, or 500 on any thrown error. */
  function GetAll(outcome: Outcome<ListResult>): (r: Response)
    ensures r.status == 200 <==> outcome.Returned?
    ensures r.body.Success() <==> r.status == 200
    ensures outcome.Returned? ==> r.body.payload == Listing(outcome.value)
    ensures outcome.Threw? ==> r == ServerError(FetchAllFailed)
  {
    match outcome
    case Returned(list) => Response(200, Ok(Listing(list), None))
    case Threw(_) => ServerError(FetchAllFailed)
  }

  /** GET /stats: the statistics under `data`, or 500. */
  function GetStats(outcome: Outcome<Stats>): (r: Response)
    ensures r.status == 200 <==> outcome.Returned?
    ensures r.body.Success() <==> r.status == 200
    ensures outcome.Returned? ==> r.body.payload == Statistics(outcome.value)
    ensures outcome.Threw? ==> r == ServerError(FetchStatsFailed)
  {
    match outcome
    case Returned(stats) => Response(200, Ok(Statistics(stats), None))
    case Threw(_) => ServerError(FetchStatsFailed)
  }

  /** GET /active: the service's list of active rows, or 500. */
  function GetActive(outcome: Outcome<ListResult>): (r: Response)
    ensures r.status == 200 <==> outcome.Returned?
    ensures r.body.Success() <==> r.status == 200
    ensures outcome.Returned? ==> r.body.payload == Listing(outcome.value)
    ensures outcome.Threw? ==> r == ServerError(FetchActiveFailed)
  {
    match outcome
    case Returned(list) => Response(200, Ok(Listing(list), None))
    case Threw(_) => ServerError(FetchActiveFailed)
  }

  /** GET /search?name=...: a missing or empty `name` is rejected before the
      service is asked; `search` is the service call for a given name. */
  function Search(name: Option<string>, search: string -> Outcome<SearchResult>): (r: Response)
    ensures name.None? || name.value == "" ==> r == Response(400, Err(NameParameterRequired))
    ensures name.Some? && name.value != "" ==>
      (r.status == 200 <==> search(name.value).Returned?)
      && (search(name.value).Returned? ==> r.body == Ok(Found(search(name.value).value), None))
      && (search(name.value).Threw? ==> r == ServerError(SearchFailed))
    ensures r.body.Success() <==> r.status == 200
  {
    if name.None? || name.value == "" then
      Response(400, Err(NameParameterRequired))
    else
      match search(name.value)
      case Returned(result) => Response(200, Ok(Found(result), None))
      case Threw(_) => ServerError(SearchFailed)
  }

  /** Without a name the search is never performed: the response does not
      depend on the service at all. */
  lemma SearchWithoutNameSkipsService(name: Option<string>,
                                      s1: string -> Outcome<SearchResult>,
                                      s2: string -> Outcome<SearchResult>)
    requires name.None? || name.value == ""
    ensures Search(name, s1) == Search(name, s2)
  {
  }

  /** The response to what the service's create produced. */
  function CreateOutcome(outcome: Outcome<OrganizationRecord>): (r: Response)
    ensures r.status == 201 <==> outcome.Returned?
    ensures outcome.Returned? ==> r.body == Ok(Created(outcome.value), Some(CreatedMessage))
    ensures r.status == 409 <==>
      outcome.Threw? && outcome.error.isError && outcome.error.message == DuplicateNameMessage
    ensures r.status == 409 ==> r.body == Err(DuplicateNameMessage)
    ensures r.status == 500 <==> outcome.Threw? && r.status != 409
    ensures r.status == 500 ==> r.body == Err(CreateFailed)
    ensures r.body.Success() <==> r.status == 201
  {
    match outcome
    case Returned(record) => Response(201, Ok(Created(record), Some(CreatedMessage)))
    case Threw(e) =>
      if e.isError && e.message == DuplicateNameMessage then Response(409, Err(e.message))
      else ServerError(CreateFailed)
  }

  /** POST /: an invalid body is answered with 400 and every violation,
      joined by ", ", without calling the service; a valid one is sanitised
      and handed to `create`, the service call. */
  function Create(body: Json, create: CreateOrganizationDto -> Outcome<OrganizationRecord>): (r: Response)
    ensures r.status == 400 <==> !Validate(body).isValid
    ensures !Validate(body).isValid ==>
      r.body == Err(Join(Messages(Validate(body).errors), ", "))
    ensures Validate(body).isValid ==> r == CreateOutcome(create(SanitizeCreateOrganization(body)))
  {
    var validation := Validate(body);
    if !validation.isValid then
      Response(400, Err(Join(Messages(validation.errors), ", ")))
    else
      CreateOutcome(create(SanitizeCreateOrganization(body)))
  }

  /** A body that is not an object gets the single fixed message. */
  lemma NonObjectBodyMessage(body: Json, create: CreateOrganizationDto -> Outcome<OrganizationRecord>)
    requires !IsRequestObject(body)
    ensures Create(body, create) == Response(400, Err("Invalid request body"))
  {
  }

  /** The service's create on a given table, seen from the controller. */
  function ServiceCreate(table: seq<OrganizationRecord>, id: string, now: int)
    : CreateOrganizationDto -> Outcome<OrganizationRecord>
  {
    dto => CreateInTable(table, dto, id, now).1
  }

  /** POST / end to end: validate, sanitise, create, respond. The table
      changes only when the response is 201, and then by exactly one row. */
  method HandleCreate(service: OrganizationService, body: Json, id: string, now: int)
    returns (response: Response)
    modifies service
    ensures response == Create(body, ServiceCreate(old(service.table), id, now))
    ensures response.status != 201 ==> service.table == old(service.table)
    ensures response.status == 201 ==>
      service.table == old(service.table) + [response.body.payload.record]
    ensures response.status in {201, 400, 409}
  {
    var validation := ValidateCreateOrganization(body);
    if !validation.isValid {
      return Response(400, Err(Join(Messages(validation.errors), ", ")));
    }
    var dto := SanitizeCreateOrganization(body);
    var outcome := service.CreateOrganization(dto, id, now);
    var created := match outcome
      case Returned(organization) => Returned(organization.Record())
      case Threw(e) => Threw(e);
    response := CreateOutcome(created);
  }
}
