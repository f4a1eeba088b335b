/** The paths the web client calls for categories (todopalm-web/src/api/categories/routes.ts). */
module CategoriesRoutes {

  const GET_ALL: string := "/categories"
  const CREATE: string := "/categories"

  /** `/categories/${id}`, shared by GET_ONE, UPDATE and DELETE. */
  function CategoryPath(id: string): (p: string)
    ensures |p| == |id| + 12 && p[..12] == GET_ALL + "/" && p[12..] == id
  {
    "/categories/" + id
  }

  function GetOne(id: string): string { CategoryPath(id) }
  function Update(id: string): string { CategoryPath(id) }
  function Delete(id: string): string { CategoryPath(id) }

  /** The list and create paths coincide, and so do the three single-category paths. */
  lemma SharedPaths(id: string)
    ensures GET_ALL == CREATE
    ensures GetOne(id) == Update(id) == Delete(id) == GET_ALL + "/" + id
  {
  }

  /** Every path built here starts with "/categories". */
  lemma PathsUnderCategories(id: string)
    ensures GET_ALL[..11] == "/categories" && CREATE[..11] == "/categories"
    ensures |CategoryPath(id)| >= 11 && CategoryPath(id)[..11] == "/categories"
  {
    assert CategoryPath(id)[..11] == CategoryPath(id)[..12][..11];
  }

  /** The id-taking builders tell ids apart. */
  lemma CategoryPathInjective(a: string, b: string)
    requires a != b
    ensures CategoryPath(a) != CategoryPath(b)
  {
    assert CategoryPath(a)[12..] == a && CategoryPath(b)[12..] == b;
  }
}
