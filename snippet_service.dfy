/**
 * `SnippetService`: creating, sharing, updating and deleting snippets in the
 * table, sending a snippet to named recipients, and the list operations built
 * on the repository's queries. The user table and the recipient table are
 * plain fields here; the service only reads the first and only appends to the
 * second.
 */
module Service {
  import opened Base
  import opened JavaStrings
  import opened Entity
  import opened Repository

  /** `CreateSnippetRequest`, the body of create, share and update. */
  datatype CreateSnippetRequest = CreateSnippetRequest(title: string, code: string, language: Option<Language>)

  /** The request's own constraints: `@NotBlank` title and code, `@NotNull`
      language. The 120-character limit is the entity's, not the request's. */
  function ValidRequest(request: CreateSnippetRequest): (b: bool)
    ensures b ==> request.language.Some?
    ensures b && Utf16Length(request.title) <= MaxTitleLength <==>
              MeetsConstraints(EntityState(None, request.title, request.code, request.language,
                                           None, None, false, None))
  {
    NotBlank(request.title) && NotBlank(request.code) && request.language.Some?
  }

  /** A `SnippetRecipient` record: the snippet was sent to `user`. */
  datatype Recipient = Recipient(snippetId: SnippetId, user: User)

  /** No two users' names are equal ignoring case. */
  predicate UniqueNamesIgnoringCase(users: seq<User>) {
    forall i, j :: 0 <= i < j < |users| ==> !EqualsIgnoreCase(users[i].name, users[j].name)
  }

  /** `findByNameIgnoreCase`: the user whose name matches ignoring case.
      Where the names are unique ignoring case (see `FindUserByNameUnique`)
      there is at most one. */
  function FindUserByName(users: seq<User>, name: string): (r: Option<User>)
    ensures r.Some? ==> r.value in users && EqualsIgnoreCase(r.value.name, name)
    ensures r.None? <==> forall k :: 0 <= k < |users| ==> !EqualsIgnoreCase(users[k].name, name)
  {
    if users == [] then None
    else if EqualsIgnoreCase(users[0].name, name) then Some(users[0])
    else
      var r := FindUserByName(users[1..], name);
      assert forall k :: 1 <= k < |users| ==> users[k] == users[1..][k - 1];
      r
  }

  /** With unique names the user found is the only one matching, so the
      result does not depend on the order of the user table. */
  lemma FindUserByNameUnique(users: seq<User>, name: string)
    requires UniqueNamesIgnoringCase(users)
    ensures FindUserByName(users, name).Some? ==>
              forall k :: 0 <= k < |users| && EqualsIgnoreCase(users[k].name, name) ==>
                users[k] == FindUserByName(users, name).value
  {
    var r := FindUserByName(users, name);
    if r.Some? {
      var j :| 0 <= j < |users| && users[j] == r.value;
      forall k | 0 <= k < |users| && EqualsIgnoreCase(users[k].name, name)
        ensures users[k] == r.value
      {
        if k < j {
          assert EqualsIgnoreCase(users[k].name, users[j].name);
        } else if j < k {
          assert EqualsIgnoreCase(users[j].name, users[k].name);
        }
      }
    }
  }

  /** The user a nullable name header designates: only a non-null,
      non-blank name is looked up. */
  function ResolveUser(users: seq<User>, nameOrNull: Option<string>): (r: Option<User>)
    ensures r.Some? <==>
              nameOrNull.Some? && !IsBlank(nameOrNull.value) && FindUserByName(users, nameOrNull.value).Some?
    ensures r.Some? ==> r.value in users && EqualsIgnoreCase(r.value.name, nameOrNull.value)
  {
    if nameOrNull.Some? && !IsBlank(nameOrNull.value) then FindUserByName(users, nameOrNull.value) else None
  }

  /** The recipient records `shareToRecipients` writes for `names`, in order. */
  function RecipientsFor(snippetId: SnippetId, users: seq<User>, names: seq<string>): (r: seq<Recipient>)
    ensures |r| <= |names|
  {
    if names == [] then []
    else
      var last := names[|names| - 1];
      RecipientsFor(snippetId, users, names[..|names| - 1])
        + match FindUserByName(users, last)
          case Some(u) => [Recipient(snippetId, u)]
          case None => []
  }

  /** One name contributes one record if it resolves to a user, none otherwise. */
  lemma RecipientsForOne(snippetId: SnippetId, users: seq<User>, name: string)
    ensures RecipientsFor(snippetId, users, [name]) ==
      match FindUserByName(users, name)
      case Some(u) => [Recipient(snippetId, u)]
      case None => []
  {
    assert [name][..0] == [];
  }

  /** The records for a list are those for each part in turn, so a name
      given twice is recorded twice. */
  lemma {:induction false} RecipientsForAppend(snippetId: SnippetId, users: seq<User>, a: seq<string>, b: seq<string>)
    ensures RecipientsFor(snippetId, users, a + b) ==
            RecipientsFor(snippetId, users, a) + RecipientsFor(snippetId, users, b)
    decreases |b|
  {
    if b == [] {
      assert a + b == a;
    } else {
      assert (a + b)[..|a + b| - 1] == a + b[..|b| - 1];
      RecipientsForAppend(snippetId, users, a, b[..|b| - 1]);
    }
  }

  /** Every record points at the snippet and at a known user that one of
      the names designates, and there are never more records than names. */
  lemma {:induction false} RecipientsForSound(snippetId: SnippetId, users: seq<User>, names: seq<string>)
    ensures |RecipientsFor(snippetId, users, names)| <= |names|
    ensures forall r :: r in RecipientsFor(snippetId, users, names) ==>
              r.snippetId == snippetId && r.user in users &&
              exists k :: 0 <= k < |names| && FindUserByName(users, names[k]) == Some(r.user)
    ensures (forall k :: 0 <= k < |names| ==> FindUserByName(users, names[k]).None?) ==>
              RecipientsFor(snippetId, users, names) == []
  {
    if names != [] {
      var init := names[..|names| - 1];
      RecipientsForSound(snippetId, users, init);
      forall r | r in RecipientsFor(snippetId, users, names)
        ensures exists k :: 0 <= k < |names| && FindUserByName(users, names[k]) == Some(r.user)
      {
        if r in RecipientsFor(snippetId, users, init) {
          var k :| 0 <= k < |init| && FindUserByName(users, init[k]) == Some(r.user);
          assert names[k] == init[k];
        } else {
          assert FindUserByName(users, names[|names| - 1]) == Some(r.user);
        }
      }
      assert forall k :: 0 <= k < |init| ==> init[k] == names[k];
    }
  }

  /** Every name that resolves yields a record for its user. */
  lemma {:induction false} RecipientsForComplete(snippetId: SnippetId, users: seq<User>, names: seq<string>, k: nat)
    requires k < |names| && FindUserByName(users, names[k]).Some?
    ensures Recipient(snippetId, FindUserByName(users, names[k]).value) in RecipientsFor(snippetId, users, names)
  {
    var init := names[..|names| - 1];
    if k < |names| - 1 {
      assert init[k] == names[k];
      RecipientsForComplete(snippetId, users, init, k);
    }
  }

  /** What `shareToRecipients` does to the stored row: it is marked shared,
      and an owner becomes the sender only when no sender is recorded. */
  function MarkShared(row: Row): (r: Row)
    ensures r.isShared
    ensures row.sharedByUser.Some? ==> r.sharedByUser == row.sharedByUser
    ensures row.sharedByUser.None? ==> r.sharedByUser == row.user
    ensures r.(isShared := row.isShared, sharedByUser := row.sharedByUser) == row
  {
    row.(isShared := true,
         sharedByUser := if row.sharedByUser.None? && row.user.Some? then row.user else row.sharedByUser)
  }

  /** The stored rows sent to the user with id `userId`, one per recipient
      record, in record order. A record whose snippet is gone yields nothing. */
  function RecipientSnippets(recipients: seq<Recipient>, userId: UserId, rows: map<SnippetId, Row>): (r: seq<Row>)
    ensures |r| <= |recipients|
    ensures forall x :: x in r ==>
              exists k :: 0 <= k < |recipients| && recipients[k].user.id == userId &&
                          recipients[k].snippetId in rows && rows[recipients[k].snippetId] == x
    ensures forall k :: 0 <= k < |recipients| && recipients[k].user.id == userId && recipients[k].snippetId in rows ==>
              rows[recipients[k].snippetId] in r
  {
    if recipients == [] then []
    else
      var rec := recipients[0];
      var rest := RecipientSnippets(recipients[1..], userId, rows);
      assert forall k :: 1 <= k < |recipients| ==> recipients[k] == recipients[1..][k - 1];
      (if rec.user.id == userId && rec.snippetId in rows then [rows[rec.snippetId]] else []) + rest
  }

  class SnippetService {
    const repository: SnippetTable
    var users: seq<User>
    var recipients: seq<Recipient>

    ghost predicate Valid()
      reads this, repository
    {
      repository.Valid() && UniqueNamesIgnoringCase(users)
    }

    constructor (repository: SnippetTable, users: seq<User>, recipients: seq<Recipient>)
      requires repository.Valid() && UniqueNamesIgnoringCase(users)
      ensures Valid()
      ensures this.repository == repository && this.users == users && this.recipients == recipients
    {
      this.repository, this.users, this.recipients := repository, users, recipients;
    }

    /** `create`: a guest snippet unless the header names a known user, who
        then owns it. Fails, changing nothing, when the entity's constraints
        reject the request's fields. */
    method Create(request: CreateSnippetRequest, userNameOrNull: Option<string>, now: int) returns (r: Result<Row>)
      requires Valid()
      modifies repository
      ensures Valid()
      ensures r.Ok? <==>
                NotBlank(request.title) && Utf16Length(request.title) <= MaxTitleLength &&
                NotBlank(request.code) && request.language.Some?
      ensures r.Err? ==> repository.rows == old(repository.rows) && repository.nextId == old(repository.nextId)
      ensures r.Ok? ==>
                && r.value == Row(old(repository.nextId), request.title, request.code, request.language.value,
                                  now, ResolveUser(users, userNameOrNull), false, None)
                && r.value.id !in old(repository.rows)
                && repository.rows == old(repository.rows)[r.value.id := r.value]
    {
      var snippet := new SnippetEntity(request.title, request.code, request.language);
      if userNameOrNull.Some? && !IsBlank(userNameOrNull.value) {
        var user := FindUserByName(users, userNameOrNull.value);
        if user.Some? {
          snippet.SetUser(user);
        }
      }
      r := repository.Save(snippet, now);
    }

    function Get(id: SnippetId): (r: Option<Row>)
      reads this, repository
      ensures r.Some? <==> id in repository.rows
      ensures r.Some? ==> r.value == repository.rows[id]
    {
      repository.FindById(id)
    }

    /** `list`: every snippet, newest first. */
    function List(): (r: seq<Row>)
      reads this, repository
      requires Valid()
      ensures SortedByCreatedAtDesc(r)
      ensures forall x :: multiset(r)[x] == if repository.Stored(x) then 1 else 0
    {
      FindAllByOrderByCreatedAtDesc(repository.Rows())
    }

    /** `listGuest`: the snippets without an owner, newest first. */
    function ListGuest(): (r: seq<Row>)
      reads this, repository
      requires Valid()
      ensures SortedByCreatedAtDesc(r)
      ensures forall x :: multiset(r)[x] == if repository.Stored(x) && x.user.None? then 1 else 0
    {
      FindByUserIsNullOrderByCreatedAtDesc(repository.Rows())
    }

    /** `listForUserName`: the snippets owned by the named user, or none when
        the name designates nobody. */
    function ListForUserName(name: string): (r: seq<Row>)
      reads this, repository
      requires Valid()
      ensures SortedByCreatedAtDesc(r)
      ensures FindUserByName(users, name).None? ==> r == []
      ensures FindUserByName(users, name).Some? ==>
                forall x :: multiset(r)[x] ==
                              if repository.Stored(x) && x.user.Some? &&
                                 x.user.value.id == FindUserByName(users, name).value.id
                              then 1 else 0
    {
      match FindUserByName(users, name)
      case None => []
      case Some(u) => FindByUserIdOrderByCreatedAtDesc(repository.Rows(), u.id)
    }

    /** `delete`: reports whether the id was stored; afterwards it is not. */
    method Delete(id: SnippetId) returns (removed: bool)
      requires Valid()
      modifies repository
      ensures Valid()
      ensures removed <==> id in old(repository.rows)
      ensures repository.rows == old(repository.rows) - {id}
      ensures !removed ==> repository.rows == old(repository.rows)
      ensures repository.nextId == old(repository.nextId)
    {
      if repository.ExistsById(id) {
        repository.DeleteById(id);
        return true;
      }
      return false;
    }

    /** `share`: stores a new snippet marked shared, with no owner; the named
        user, if known, is recorded as the sender. */
    method Share(request: CreateSnippetRequest, userNameOrNull: Option<string>, now: int) returns (r: Result<Row>)
      requires Valid()
      modifies repository
      ensures Valid()
      ensures r.Ok? <==>
                NotBlank(request.title) && Utf16Length(request.title) <= MaxTitleLength &&
                NotBlank(request.code) && request.language.Some?
      ensures r.Err? ==> repository.rows == old(repository.rows) && repository.nextId == old(repository.nextId)
      ensures r.Ok? ==>
                && r.value == Row(old(repository.nextId), request.title, request.code, request.language.value,
                                  now, None, true, ResolveUser(users, userNameOrNull))
                && r.value.id !in old(repository.rows)
                && repository.rows == old(repository.rows)[r.value.id := r.value]
    {
      var snippet := new SnippetEntity(request.title, request.code, request.language);
      snippet.SetIsShared(true);
      if userNameOrNull.Some? && !IsBlank(userNameOrNull.value) {
        var user := FindUserByName(users, userNameOrNull.value);
        if user.Some? {
          snippet.SetSharedByUser(user);
        }
      }
      r := repository.Save(snippet, now);
    }

    /** `listShared`: the snippets marked shared, newest first. */
    function ListShared(): (r: seq<Row>)
      reads this, repository
      requires Valid()
      ensures SortedByCreatedAtDesc(r)
      ensures forall x :: multiset(r)[x] == if repository.Stored(x) && x.isShared then 1 else 0
    {
      FindByIsSharedTrueOrderByCreatedAtDesc(repository.Rows())
    }

    /** `listSharedForUser`: the snippets the named user sent, or none when
        the name designates nobody. */
    function ListSharedForUser(name: string): (r: seq<Row>)
      reads this, repository
      requires Valid()
      ensures SortedByCreatedAtDesc(r)
      ensures FindUserByName(users, name).None? ==> r == []
      ensures FindUserByName(users, name).Some? ==>
                forall x :: multiset(r)[x] ==
                              if repository.Stored(x) && x.sharedByUser.Some? &&
                                 x.sharedByUser.value.id == FindUserByName(users, name).value.id
                              then 1 else 0
    {
      match FindUserByName(users, name)
      case None => []
      case Some(u) => FindBySharedByUserIdOrderByCreatedAtDesc(repository.Rows(), u.id)
    }

    /** `update`: empty, changing nothing, when the id is not stored;
        otherwise only title, code and language take the request's values.
        Fails, changing nothing, when the entity's constraints reject them.
        The clock `now` is consulted only by inserts, which this never makes. */
    method Update(id: SnippetId, request: CreateSnippetRequest, now: int) returns (r: Result<Option<Row>>)
      requires Valid()
      modifies repository
      ensures Valid() && repository.nextId == old(repository.nextId)
      ensures id !in old(repository.rows) ==> r == Ok(None)
      ensures id in old(repository.rows) ==>
                (r.Ok? <==> NotBlank(request.title) && Utf16Length(request.title) <= MaxTitleLength &&
                            NotBlank(request.code) && request.language.Some?)
      ensures r.Ok? && id in old(repository.rows) ==>
                && r.value == Some(old(repository.rows)[id].(title := request.title, code := request.code,
                                                             language := request.language.value))
                && repository.rows == old(repository.rows)[id := r.value.value]
      ensures !(r.Ok? && r.value.Some?) ==> repository.rows == old(repository.rows)
    {
      var snippet := repository.Load(id);
      if snippet == null {
        return Ok(None);
      }
      snippet.SetTitle(request.title);
      snippet.SetCode(request.code);
      snippet.SetLanguage(request.language);
      var saved := repository.Save(snippet, now);
      match saved
      case Ok(row) => r := Ok(Some(row));
      case Err(e) => r := Err(e);
    }

    /** `shareToRecipients`: nothing happens for an unknown id. Otherwise the
        row is marked shared (see `MarkShared`) and one recipient record is
        appended for each name that designates a user, in order. */
    method ShareToRecipients(snippetId: SnippetId, recipientUserNames: seq<string>, now: int)
      requires Valid()
      modifies this, repository
      ensures Valid() && users == old(users) && repository.nextId == old(repository.nextId)
      ensures snippetId !in old(repository.rows) ==>
                repository.rows == old(repository.rows) && recipients == old(recipients)
      ensures snippetId in old(repository.rows) ==>
                && repository.rows == old(repository.rows)[snippetId := MarkShared(old(repository.rows)[snippetId])]
                && recipients == old(recipients) + RecipientsFor(snippetId, users, recipientUserNames)
    {
      var snippet := repository.Load(snippetId);
      if snippet == null {
        return;
      }
      snippet.SetIsShared(true);
      if snippet.sharedByUser.None? && snippet.user.Some? {
        snippet.SetSharedByUser(snippet.user);
      }
      var saved := repository.Save(snippet, now);

      var i := 0;
      while i < |recipientUserNames|
        modifies this
        invariant 0 <= i <= |recipientUserNames|
        invariant users == old(users)
        invariant recipients == old(recipients) + RecipientsFor(snippetId, users, recipientUserNames[..i])
      {
        var user := FindUserByName(users, recipientUserNames[i]);
        assert recipientUserNames[..i + 1][..i] == recipientUserNames[..i];
        if user.Some? {
          recipients := recipients + [Recipient(snippetId, user.value)];
        }
        i := i + 1;
      }
      assert recipientUserNames[..i] == recipientUserNames;
    }

    /** `listSharedWithUser`: the snippets sent to the named user, or none
        when the name designates nobody. */
    function ListSharedWithUser(name: string): (r: seq<Row>)
      reads this, repository
      ensures FindUserByName(users, name).None? ==> r == []
      ensures forall x :: x in r ==> x in repository.rows.Values
      ensures FindUserByName(users, name).Some? ==>
                forall x :: x in r ==>
                  exists k :: 0 <= k < |recipients| &&
                              recipients[k].user.id == FindUserByName(users, name).value.id &&
                              recipients[k].snippetId in repository.rows &&
                              repository.rows[recipients[k].snippetId] == x
      ensures FindUserByName(users, name).Some? ==>
                forall k :: 0 <= k < |recipients| &&
                            recipients[k].user.id == FindUserByName(users, name).value.id &&
                            recipients[k].snippetId in repository.rows ==>
                  repository.rows[recipients[k].snippetId] in r
    {
      match FindUserByName(users, name)
      case None => []
      case Some(u) => RecipientSnippets(recipients, u.id, repository.rows)
    }
  }
}
