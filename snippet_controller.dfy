/**
 * `SnippetController`: the REST handlers under `/api/snippets`. Each one
 * checks its inputs, delegates to the service and turns the service's answer
 * into an HTTP status and body. A nullable request header is an
 * `Option<string>`; an exception escaping the service becomes status 500, as
 * Spring's default error handling makes it.
 */
module Controller {
  import opened Base
  import opened JavaStrings
  import opened Entity
  import opened Repository
  import opened Service

  const OK: int := 200
  const CREATED: int := 201
  const NO_CONTENT: int := 204
  const BAD_REQUEST: int := 400
  const NOT_FOUND: int := 404
  const INTERNAL_SERVER_ERROR: int := 500

  /** A `ResponseEntity`: a status and, for some statuses, a body. */
  datatype Response<T> = Response(status: int, body: Option<T>)

  /** An `X-User-Name` header that is missing or blank. */
  predicate MissingName(userName: Option<string>) {
    userName.None? || IsBlank(userName.value)
  }

  /** `ShareToUsersRequest`; the body itself may also be missing. */
  datatype ShareToUsersRequest = ShareToUsersRequest(userNames: Option<seq<string>>)

  /** Whether `share-to` must refuse the request without calling the service. */
  predicate NoRecipients(request: Option<ShareToUsersRequest>) {
    request.None? || request.value.userNames.None? || |request.value.userNames.value| == 0
  }

  /** `Language.values()`, in declaration order. */
  const AllLanguages: seq<Language> :=
    [JAVA, JAVASCRIPT, TYPESCRIPT, PYTHON, GO, CSHARP, CPP, HTML, CSS, SQL, JSON, YAML, SHELL]

  lemma EveryLanguageListed()
    ensures forall l: Language :: l in AllLanguages
  {
    forall l: Language ensures l in AllLanguages {
      match l
      case JAVA => case JAVASCRIPT => case TYPESCRIPT => case PYTHON => case GO =>
      case CSHARP => case CPP => case HTML => case CSS => case SQL => case JSON =>
      case YAML => case SHELL =>
    }
  }

  class SnippetController {
    const service: SnippetService

    constructor (service: SnippetService)
      ensures this.service == service
    {
      this.service := service;
    }

    /** `GET /me`: 400 for a missing or blank name, whatever the service
        holds; otherwise 200 with the named user's snippets. */
    function ListMe(userName: Option<string>): (r: Response<seq<Row>>)
      reads service, service.repository
      requires service.Valid()
      ensures r.status == BAD_REQUEST <==> MissingName(userName)
      ensures r.status == BAD_REQUEST ==> r.body.None?
      ensures r.status != BAD_REQUEST ==>
                r.status == OK && r.body == Some(service.ListForUserName(userName.value))
    {
      if userName.None? || IsBlank(userName.value) then
        Response(BAD_REQUEST, None)
      else
        Response(OK, Some(service.ListForUserName(userName.value)))
    }

    /** `GET /languages`: every constant of the enum, each once. */
    function Languages(): (r: seq<Language>)
      ensures forall l: Language :: l in r
      ensures forall i, j :: 0 <= i < j < |r| ==> r[i] != r[j]
    {
      EveryLanguageListed();
      AllLanguages
    }

    /** `GET /{id}`: 404 exactly when the id is not stored, else 200 with the row. */
    function Get(id: SnippetId): (r: Response<Row>)
      reads service, service.repository
      ensures r.status == NOT_FOUND <==> id !in service.repository.rows
      ensures r.status != NOT_FOUND ==> r.status == OK && r.body == Some(service.repository.rows[id])
      ensures r.status == NOT_FOUND ==> r.body.None?
    {
      match service.Get(id)
      case Some(row) => Response(OK, Some(row))
      case None => Response(NOT_FOUND, None)
    }

    /** `POST /`: 400 for a request that fails its own constraints, before
        the service runs; 500 when the entity's constraints reject it; else
        201 with the stored row. */
    method Create(userName: Option<string>, request: CreateSnippetRequest, now: int) returns (r: Response<Row>)
      requires service.Valid()
      modifies service.repository
      ensures service.Valid()
      ensures !ValidRequest(request) ==>
                r == Response(BAD_REQUEST, None) && service.repository.rows == old(service.repository.rows)
      ensures ValidRequest(request) ==>
                (r.status == CREATED <==> Utf16Length(request.title) <= MaxTitleLength)
      ensures r.status == CREATED ==>
                && r.body.Some? && r.body.value.id !in old(service.repository.rows)
                && service.repository.rows == old(service.repository.rows)[r.body.value.id := r.body.value]
      ensures ValidRequest(request) && Utf16Length(request.title) > MaxTitleLength ==>
                r == Response(INTERNAL_SERVER_ERROR, None)
      ensures r.status != CREATED ==> service.repository.rows == old(service.repository.rows)
    {
      if !ValidRequest(request) {
        return Response(BAD_REQUEST, None);
      }
      var saved := service.Create(request, userName, now);
      match saved
      case Ok(row) => r := Response(CREATED, Some(row));
      case Err(_) => r := Response(INTERNAL_SERVER_ERROR, None);
    }

    /** `DELETE /{id}`: 204 exactly when the service removed a snippet, else 404. */
    method Delete(id: SnippetId) returns (status: int)
      requires service.Valid()
      modifies service.repository
      ensures service.Valid()
      ensures status == NO_CONTENT <==> id in old(service.repository.rows)
      ensures status == NO_CONTENT || status == NOT_FOUND
      ensures service.repository.rows == old(service.repository.rows) - {id}
    {
      var removed := service.Delete(id);
      if removed {
        status := NO_CONTENT;
      } else {
        status := NOT_FOUND;
      }
    }

    /** `POST /share`: as `Create`, through the service's `share`. */
    method Share(userName: Option<string>, request: CreateSnippetRequest, now: int) returns (r: Response<Row>)
      requires service.Valid()
      modifies service.repository
      ensures service.Valid()
      ensures !ValidRequest(request) ==>
                r == Response(BAD_REQUEST, None) && service.repository.rows == old(service.repository.rows)
      ensures ValidRequest(request) ==>
                (r.status == CREATED <==> Utf16Length(request.title) <= MaxTitleLength)
      ensures r.status == CREATED ==>
                && r.body.Some? && r.body.value.isShared && r.body.value.user.None?
                && service.repository.rows == old(service.repository.rows)[r.body.value.id := r.body.value]
      ensures ValidRequest(request) && Utf16Length(request.title) > MaxTitleLength ==>
                r == Response(INTERNAL_SERVER_ERROR, None)
      ensures r.status != CREATED ==> service.repository.rows == old(service.repository.rows)
    {
      if !ValidRequest(request) {
        return Response(BAD_REQUEST, None);
      }
      var saved := service.Share(request, userName, now);
      match saved
      case Ok(row) => r := Response(CREATED, Some(row));
      case Err(_) => r := Response(INTERNAL_SERVER_ERROR, None);
    }

    /** `GET /shared/me`: 400 for a missing or blank name; otherwise 200 with
        the snippets sent to that user. */
    function ListSharedForUser(userName: Option<string>): (r: Response<seq<Row>>)
      reads service, service.repository
      ensures r.status == BAD_REQUEST <==> MissingName(userName)
      ensures r.status == BAD_REQUEST ==> r.body.None?
      ensures r.status != BAD_REQUEST ==>
                r.status == OK && r.body == Some(service.ListSharedWithUser(userName.value))
    {
      if userName.None? || IsBlank(userName.value) then
        Response(BAD_REQUEST, None)
      else
        Response(OK, Some(service.ListSharedWithUser(userName.value)))
    }

    /** `PUT /{id}`: 400 for a request that fails its own constraints, before
        the service runs; 404 exactly when the service finds no snippet; 500
        when the entity's constraints reject the new fields; else 200 with
        the updated row. */
    method Update(id: SnippetId, request: CreateSnippetRequest, now: int) returns (r: Response<Row>)
      requires service.Valid()
      modifies service.repository
      ensures service.Valid()
      ensures !ValidRequest(request) ==>
                r == Response(BAD_REQUEST, None) && service.repository.rows == old(service.repository.rows)
      ensures ValidRequest(request) ==>
                (r.status == NOT_FOUND <==> id !in old(service.repository.rows))
      ensures r.status == OK ==>
                && r.body.Some? && id in old(service.repository.rows)
                && r.body.value == old(service.repository.rows)[id].(title := request.title, code := request.code,
                                                                     language := request.language.value)
                && service.repository.rows == old(service.repository.rows)[id := r.body.value]
      ensures ValidRequest(request) ==> r.status != BAD_REQUEST
      ensures ValidRequest(request) && id in old(service.repository.rows) ==>
                (r.status == OK <==> Utf16Length(request.title) <= MaxTitleLength)
      ensures ValidRequest(request) && id in old(service.repository.rows) &&
              Utf16Length(request.title) > MaxTitleLength ==>
                r == Response(INTERNAL_SERVER_ERROR, None)
      ensures r.status != OK ==> service.repository.rows == old(service.repository.rows) && r.body.None?
      ensures r.status in {OK, BAD_REQUEST, NOT_FOUND, INTERNAL_SERVER_ERROR}
    {
      if !ValidRequest(request) {
        return Response(BAD_REQUEST, None);
      }
      var updated := service.Update(id, request, now);
      match updated
      case Ok(Some(row)) => r := Response(OK, Some(row));
      case Ok(None) => r := Response(NOT_FOUND, None);
      case Err(_) => r := Response(INTERNAL_SERVER_ERROR, None);
    }

    /** `POST /{id}/share-to`: 400 without calling the service when there is
        no body, no name list or an empty one; otherwise 204, whether or not
        the id is stored; the service's effect is then as `ShareToRecipients`
        states. */
    method ShareToUsers(id: SnippetId, request: Option<ShareToUsersRequest>, now: int) returns (status: int)
      requires service.Valid()
      modifies service, service.repository
      ensures service.Valid() && service.users == old(service.users)
      ensures status == BAD_REQUEST <==> NoRecipients(request)
      ensures status == BAD_REQUEST ==>
                && service.repository.rows == old(service.repository.rows)
                && service.recipients == old(service.recipients)
      ensures status != BAD_REQUEST ==>
                && status == NO_CONTENT
                && (id !in old(service.repository.rows) ==>
                      service.repository.rows == old(service.repository.rows) &&
                      service.recipients == old(service.recipients))
                && (id in old(service.repository.rows) ==>
                      service.repository.rows ==
                        old(service.repository.rows)[id := MarkShared(old(service.repository.rows)[id])] &&
                      service.recipients ==
                        old(service.recipients) + RecipientsFor(id, service.users, request.value.userNames.value))
    {
      if request.None? || request.value.userNames.None? || |request.value.userNames.value| == 0 {
        return BAD_REQUEST;
      }
      service.ShareToRecipients(id, request.value.userNames.value, now);
      status := NO_CONTENT;
    }
  }
}
