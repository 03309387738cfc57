/** The rows the feed code reads from the backend, reduced to the fields the
    modelled code consults. */
module Records {
  type ID = string

  /** The author metadata a post carries (`uploaderData`). */
  datatype Uploader = Uploader(username: string, firstName: string, middleName: string, lastName: string)

  /** A feed post. `user_feed` rows identify their author by `uploader_id`,
      `hunt_blog` rows by `uploader_email` and `uploaderData`; one record holds
      both. `createdAt` is the timestamp the backend orders by. */
  datatype Post = Post(
    id: string,
    uploaderId: ID,
    uploaderEmail: string,
    uploaderData: Uploader,
    content: string,
    createdAt: int)

  datatype FullName = FullName(first: string, middle: string, last: string)

  /** A candidate for the recommended-users list. */
  datatype User = User(id: ID, username: string, fullname: FullName)

  /** Ordered by `created_at`, descending, as `.order('created_at', { ascending: false })` returns them. */
  ghost predicate NewestFirst(ps: seq<Post>) {
    forall i, j :: 0 <= i < j < |ps| ==> ps[i].createdAt >= ps[j].createdAt
  }
}
