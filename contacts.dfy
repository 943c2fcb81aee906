/**
 * The one entity of the contact book, shared by the API service and the
 * browser client.
 */
module Contacts {

  datatype Option<T> = None | Some(value: T) {
    function GetOr(default: T): (v: T) {
      match this
      case Some(v) => v
      case None => default
    }
  }

  /** The document store's identifier, kept abstract: only equality matters. */
  type Id = nat

  /**
   * A stored contact. `createdAt` stands for the creation timestamp the
   * schema's `timestamps` option assigns; it is a logical clock here.
   */
  datatype Contact = Contact(id: Id, name: string, phone: string, email: string, createdAt: nat)

  /** Creation stamps strictly increase along the insertion order. */
  predicate StampsIncreasing(s: seq<Contact>) {
    forall i, j :: 0 <= i < j < |s| ==> s[i].createdAt < s[j].createdAt
  }

  /** No two records share an identifier. */
  predicate UniqueIds(s: seq<Contact>) {
    forall i, j :: 0 <= i < j < |s| ==> s[i].id != s[j].id
  }

  /** Some record of `s` has identifier `id`. */
  predicate HasId(s: seq<Contact>, id: Id) {
    exists i :: 0 <= i < |s| && s[i].id == id
  }
}
