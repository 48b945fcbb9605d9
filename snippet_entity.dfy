/**
 * The `snippets` table: the language enum, the user a snippet refers to, the
 * mutable JPA entity `SnippetEntity` and the row the database keeps for it.
 */
module Entity {
  import opened Base
  import opened JavaStrings

  /** The `Language` enum, in declaration order. */
  datatype Language =
    | JAVA | JAVASCRIPT | TYPESCRIPT | PYTHON | GO | CSHARP | CPP
    | HTML | CSS | SQL | JSON | YAML | SHELL

  /** The enum constant's name, as JSON serialises it. */
  function LanguageName(l: Language): string {
    match l
    case JAVA => "JAVA"
    case JAVASCRIPT => "JAVASCRIPT"
    case TYPESCRIPT => "TYPESCRIPT"
    case PYTHON => "PYTHON"
    case GO => "GO"
    case CSHARP => "CSHARP"
    case CPP => "CPP"
    case HTML => "HTML"
    case CSS => "CSS"
    case SQL => "SQL"
    case JSON => "JSON"
    case YAML => "YAML"
    case SHELL => "SHELL"
  }

  /** Primary keys are opaque: the model only compares them. */
  type SnippetId = nat
  type UserId = nat

  /** The part of `UserEntity` the snippet code uses. */
  datatype User = User(id: UserId, name: string)

  /** Length of the `title` column and its `@Size` bound, in UTF-16 units. */
  const MaxTitleLength: nat := 120

  /** Every field of a `SnippetEntity` object at one moment; `None` is `null`. */
  datatype EntityState = EntityState(
    id: Option<SnippetId>,
    title: string,
    code: string,
    language: Option<Language>,
    createdAt: Option<int>,
    user: Option<User>,
    isShared: bool,
    sharedByUser: Option<User>)

  /** The column constraints a stored entity must meet: `@NotBlank` and
      `@Size(max = 120)` on the title, `@NotBlank` on the code, `@NotNull`
      on the language. */
  predicate MeetsConstraints(e: EntityState) {
    && NotBlank(e.title) && Utf16Length(e.title) <= MaxTitleLength
    && NotBlank(e.code)
    && e.language.Some?
  }

  /** A stored row of the `snippets` table. Its id and creation time are
      always present and its language is never null. */
  datatype Row = Row(
    id: SnippetId,
    title: string,
    code: string,
    language: Language,
    createdAt: int,
    user: Option<User>,
    isShared: bool,
    sharedByUser: Option<User>)

  /** The row written for an entity under a given key and creation time. */
  function RowOf(e: EntityState, id: SnippetId, createdAt: int): (r: Row)
    requires e.language.Some?
    ensures r.id == id && r.createdAt == createdAt
    ensures r.title == e.title && r.code == e.code && Some(r.language) == e.language
    ensures r.user == e.user && r.isShared == e.isShared && r.sharedByUser == e.sharedByUser
  {
    Row(id, e.title, e.code, e.language.value, createdAt, e.user, e.isShared, e.sharedByUser)
  }

  /** The entity JPA hands out when it loads a row. */
  function StateOf(r: Row): (e: EntityState)
    ensures e.id == Some(r.id) && e.createdAt == Some(r.createdAt)
    ensures e.language.Some? && RowOf(e, r.id, r.createdAt) == r
  {
    EntityState(Some(r.id), r.title, r.code, Some(r.language), Some(r.createdAt),
                r.user, r.isShared, r.sharedByUser)
  }

  /** The column constraints, as a stored row meets them. */
  predicate RowMeetsConstraints(r: Row) {
    NotBlank(r.title) && Utf16Length(r.title) <= MaxTitleLength && NotBlank(r.code)
  }

  /** Writing an entity and loading it back gives the entity with its key
      and creation time filled in. */
  lemma StoredThenLoaded(e: EntityState, id: SnippetId, createdAt: int)
    requires e.language.Some?
    ensures StateOf(RowOf(e, id, createdAt)) == e.(id := Some(id), createdAt := Some(createdAt))
    ensures MeetsConstraints(e) <==> RowMeetsConstraints(RowOf(e, id, createdAt))
  {
  }

  /** `SnippetEntity`: a mutable record whose fields change one setter at a
      time. Java's `null` strings are not modelled: absent text is `""`,
      which fails `@NotBlank` exactly as `null` does. */
  class SnippetEntity {
    var id: Option<SnippetId>
    var title: string
    var code: string
    var language: Option<Language>
    var createdAt: Option<int>
    var user: Option<User>
    var isShared: bool
    var sharedByUser: Option<User>

    function State(): EntityState
      reads this
    {
      EntityState(id, title, code, language, createdAt, user, isShared, sharedByUser)
    }

    /** The no-argument constructor JPA uses. */
    constructor Empty()
      ensures State() == EntityState(None, "", "", None, None, None, false, None)
    {
      id, title, code, language := None, "", "", None;
      createdAt, user, isShared, sharedByUser := None, None, false, None;
    }

    /** A guest snippet: no owner, no sender, `isShared` false by default. */
    constructor (title: string, code: string, language: Option<Language>)
      ensures State() == EntityState(None, title, code, language, None, None, false, None)
    {
      this.id, this.title, this.code, this.language := None, title, code, language;
      this.createdAt, this.user, this.isShared, this.sharedByUser := None, None, false, None;
    }

    /** A snippet owned by `user`; otherwise as the three-argument constructor. */
    constructor WithUser(title: string, code: string, language: Option<Language>, user: Option<User>)
      ensures State() == EntityState(None, title, code, language, None, user, false, None)
    {
      this.id, this.title, this.code, this.language := None, title, code, language;
      this.createdAt, this.user, this.isShared, this.sharedByUser := None, user, false, None;
    }

    method SetId(id: Option<SnippetId>)
      modifies this
      ensures State() == old(State()).(id := id)
    {
      this.id := id;
    }

    method SetTitle(title: string)
      modifies this
      ensures State() == old(State()).(title := title)
    {
      this.title := title;
    }

    method SetCode(code: string)
      modifies this
      ensures State() == old(State()).(code := code)
    {
      this.code := code;
    }

    method SetLanguage(language: Option<Language>)
      modifies this
      ensures State() == old(State()).(language := language)
    {
      this.language := language;
    }

    method SetCreatedAt(createdAt: Option<int>)
      modifies this
      ensures State() == old(State()).(createdAt := createdAt)
    {
      this.createdAt := createdAt;
    }

    method SetUser(user: Option<User>)
      modifies this
      ensures State() == old(State()).(user := user)
    {
      this.user := user;
    }

    method SetIsShared(isShared: bool)
      modifies this
      ensures State() == old(State()).(isShared := isShared)
    {
      this.isShared := isShared;
    }

    method SetSharedByUser(sharedByUser: Option<User>)
      modifies this
      ensures State() == old(State()).(sharedByUser := sharedByUser)
    {
      this.sharedByUser := sharedByUser;
    }
  }
}
