/** Shared vocabulary of the model: optional values, the error responses the
    routes send, and the two list updates the code performs on id arrays
    (`includes`/`push` and `filter(id => id !== x)`). */
module Base {

  datatype Option<+T> = None | Some(value: T)

  /** Ids of users, projects, meetings and sockets, and room names, are strings. */
  type Id = string

  /** The payload of a verified token, as the code reads it off `req.user`
      and `socket.user`. The tokens backend/routes/auth.js signs carry only
      `id` and `role`, so `username` is whatever the verifier produced. */
  datatype Claims = Claims(id: Id, role: Option<string>, username: Option<string>)

  /** `user.role === 'admin'`: the exact, case-sensitive comparison the
      routes make. */
  predicate IsAdmin(user: Claims)
  {
    user.role == Some("admin")
  }

  /** The error responses of the HTTP routes, one constructor per status code. */
  datatype Failure =
    | BadRequest(message: string)     // 400
    | Unauthorized(message: string)   // 401
    | Forbidden(message: string)      // 403
    | NotFound(message: string)       // 404
    | ServerError(message: string)    // 500

  /** What a route sends back: a JSON body of type T, or an error response. */
  datatype Response<+T> = Ok(body: T) | Fail(failure: Failure)

  /** JavaScript truthiness of a string: only the empty string (and a missing
      value, modelled as "") is falsy. */
  predicate Truthy(s: string) { s != "" }

  /** `arr.filter(y => y !== x)`: every entry equal to `x` is dropped, the rest
      keep their order. */
  function RemoveAll(s: seq<Id>, x: Id): (r: seq<Id>)
    ensures forall y :: y in r <==> y in s && y != x
    ensures |r| <= |s|
    ensures x in s ==> |r| < |s|
  {
    if s == [] then []
    else if s[0] == x then RemoveAll(s[1..], x)
    else [s[0]] + RemoveAll(s[1..], x)
  }

  /** `if (!arr.includes(x)) arr.push(x)` as a value. */
  function AddIfAbsent(s: seq<Id>, x: Id): (r: seq<Id>)
    ensures forall y :: y in r <==> y in s || y == x
    ensures |r| == if x in s then |s| else |s| + 1
    ensures r[..|s|] == s
  {
    if x in s then s else s + [x]
  }

  /** A sequence with no repeated entry (the shape JavaScript `Set`s and the
      id arrays the routes keep have). */
  predicate NoDuplicates(s: seq<Id>)
  {
    forall i, j :: 0 <= i < j < |s| ==> s[i] != s[j]
  }

  /** Filtering distributes over concatenation: the kept entries of each part
      stay in their order, and the parts stay in theirs. */
  lemma {:induction false} RemoveAllAppend(a: seq<Id>, b: seq<Id>, x: Id)
    ensures RemoveAll(a + b, x) == RemoveAll(a, x) + RemoveAll(b, x)
  {
    if a == [] {
      assert a + b == b;
    } else {
      assert (a + b)[1..] == a[1..] + b;
      RemoveAllAppend(a[1..], b, x);
    }
  }

  /** Filtering out a value that does not occur changes nothing. */
  lemma {:induction false} RemoveAllAbsent(s: seq<Id>, x: Id)
    requires x !in s
    ensures RemoveAll(s, x) == s
  {
    if s != [] {
      assert s == [s[0]] + s[1..];
      RemoveAllAbsent(s[1..], x);
    }
  }

  /** Filtering twice is filtering once. */
  lemma RemoveAllIdempotent(s: seq<Id>, x: Id)
    ensures RemoveAll(RemoveAll(s, x), x) == RemoveAll(s, x)
  {
    RemoveAllAbsent(RemoveAll(s, x), x);
  }

  /** Filtering keeps a duplicate-free sequence duplicate-free. */
  lemma {:induction false} RemoveAllNoDuplicates(s: seq<Id>, x: Id)
    requires NoDuplicates(s)
    ensures NoDuplicates(RemoveAll(s, x))
  {
    if s != [] {
      assert NoDuplicates(s[1..]);
      RemoveAllNoDuplicates(s[1..], x);
      if s[0] != x {
        var r := [s[0]] + RemoveAll(s[1..], x);
        assert s[0] !in s[1..];
        forall i, j | 0 <= i < j < |r| ensures r[i] != r[j] {
          if i == 0 { assert r[j] in RemoveAll(s[1..], x); }
        }
      }
    }
  }

  /** Adding an element that is already there changes nothing, so a second
      call with the same element leaves the list as the first call did; the
      element is there afterwards, and nothing is removed or reordered. */
  lemma AddIfAbsentProperties(s: seq<Id>, x: Id)
    ensures x in AddIfAbsent(s, x)
    ensures AddIfAbsent(AddIfAbsent(s, x), x) == AddIfAbsent(s, x)
    ensures AddIfAbsent(s, x)[..|s|] == s
    ensures NoDuplicates(s) ==> NoDuplicates(AddIfAbsent(s, x))
  {
  }
}
