/** The read-only JSON-file repositories (internal/repositories/json_*_repo.go).
    The four files differ only in the record type, so one generic class
    models them, parameterised by the record's ID projection. Opening and
    decoding the file is not modelled: `contents` is what `List` obtains,
    the decoded items or the error it returns. */
module JsonRepo {

  import opened Wrappers
  import opened Models

  datatype RepoError =
    | ReadOnly                  // ErrReadOnly
    | ReadFailed(message: string)  // os.Open or json.Decode failed

  /** `k` is the position of the first item whose ID is `id`. */
  predicate IsFirstMatch<T>(items: seq<T>, idOf: T -> string, id: string, k: int)
  {
    && 0 <= k < |items|
    && idOf(items[k]) == id
    && forall j :: 0 <= j < k ==> idOf(items[j]) != id
  }

  class JsonRepository<T> {
    const idOf: T -> string
    const contents: Result<seq<T>, RepoError>

    constructor (idOf: T -> string, contents: Result<seq<T>, RepoError>)
      ensures this.contents == contents
      ensures forall x :: this.idOf(x) == idOf(x)
    {
      this.idOf := idOf;
      this.contents := contents;
    }

    /** `List`. */
    function List(): Result<seq<T>, RepoError>
    {
      contents
    }

    /** `GetByID`: a list error comes back unchanged; otherwise the first
        item, in file order, whose ID is `id`, or absent (not an error) when
        none is. */
    method GetByID(id: string) returns (r: Result<Option<T>, RepoError>)
      ensures List().Err? ==> r == Err(List().error)
      ensures List().Ok? ==> r.Ok?
      ensures List().Ok? && r.Ok? && r.value.Some? ==>
                exists k :: IsFirstMatch(List().value, idOf, id, k) && r.value.value == List().value[k]
      ensures List().Ok? && r.Ok? && r.value.None? ==>
                forall j :: 0 <= j < |List().value| ==> idOf(List().value[j]) != id
    {
      var list := List();
      if list.Err? {
        return Err(list.error);
      }
      var items := list.value;
      var i := 0;
      while i < |items|
        invariant 0 <= i <= |items|
        invariant forall j :: 0 <= j < i ==> idOf(items[j]) != id
      {
        if idOf(items[i]) == id {
          assert IsFirstMatch(items, idOf, id, i);
          return Ok(Some(items[i]));
        }
        i := i + 1;
      }
      return Ok(None);
    }

    /** `Create`: the file is never written. */
    method Create(item: T) returns (e: RepoError)
      ensures e == ReadOnly
    {
      return ReadOnly;
    }

    /** `Update`: the file is never written. */
    method Update(item: T) returns (e: RepoError)
      ensures e == ReadOnly
    {
      return ReadOnly;
    }

    /** `Delete`: the file is never written. */
    method Delete(id: string) returns (e: RepoError)
      ensures e == ReadOnly
    {
      return ReadOnly;
    }
  }

  /** `NewJSONPostRepository`: posts, keyed by `Post.ID`. */
  method NewPostRepository(contents: Result<seq<Post>, RepoError>) returns (repo: JsonRepository<Post>)
    ensures fresh(repo) && repo.contents == contents
    ensures forall p :: repo.idOf(p) == p.id
  {
    repo := new JsonRepository<Post>((p: Post) => p.id, contents);
  }

  /** `NewJSONContactRepository`: contacts, keyed by `Contact.ID`. */
  method NewContactRepository(contents: Result<seq<Contact>, RepoError>) returns (repo: JsonRepository<Contact>)
    ensures fresh(repo) && repo.contents == contents
    ensures forall c :: repo.idOf(c) == c.id
  {
    repo := new JsonRepository<Contact>((c: Contact) => c.id, contents);
  }

  /** `NewJSONProjectRepository`: projects, keyed by `Project.ID`. */
  method NewProjectRepository(contents: Result<seq<Project>, RepoError>) returns (repo: JsonRepository<Project>)
    ensures fresh(repo) && repo.contents == contents
    ensures forall p :: repo.idOf(p) == p.id
  {
    repo := new JsonRepository<Project>((p: Project) => p.id, contents);
  }

  /** `NewJSONSkillRepository`: skills, keyed by `Skill.ID`. */
  method NewSkillRepository(contents: Result<seq<Skill>, RepoError>) returns (repo: JsonRepository<Skill>)
    ensures fresh(repo) && repo.contents == contents
    ensures forall s :: repo.idOf(s) == s.id
  {
    repo := new JsonRepository<Skill>((s: Skill) => s.id, contents);
  }
}
