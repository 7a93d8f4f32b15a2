/**
 * The database the data-access layer talks to: the four tables held as
 * fields that each statement replaces.
 */
module Database {
  import opened Wrappers
  import opened Schema

  class Store {
    var servers: seq<Server>
    var categories: seq<Category>
    var links: seq<Link>
    var submissions: seq<Submission>

    /** The tables as a value. */
    function Snapshot(): Tables
      reads this
    {
      Tables(servers, categories, links, submissions)
    }

    /** The schema's constraints hold. */
    predicate Valid()
      reads this
    {
      Schema.Valid(Snapshot())
    }

    constructor ()
      ensures Snapshot() == Tables([], [], [], []) && Valid()
    {
      servers, categories, links, submissions := [], [], [], [];
    }

    /** Sets the tables to `t`. */
    method Put(t: Tables)
      modifies this
      ensures Snapshot() == t
    {
      servers, categories, links, submissions := t.servers, t.categories, t.links, t.submissions;
    }

    /**
     * Runs one statement whose outcome is `r`: on success the tables become
     * its result; on failure they are unchanged.
     */
    method Run(r: Result<Tables, DbError>) returns (e: Option<DbError>)
      modifies this
      ensures r.Ok? ==> Snapshot() == r.value && e == None
      ensures r.Err? ==> Snapshot() == old(Snapshot()) && e == Some(r.error)
    {
      if r.Ok? {
        Put(r.value);
        e := None;
      } else {
        e := Some(r.error);
      }
    }
  }
}
