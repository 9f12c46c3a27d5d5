/** Reading one resource list page by page: all of one consistent list, or nothing. */
module Pagination {
  import opened Core
  import opened Routes

  /** One answer: `items` is absent when the response carries no list. */
  datatype Page = Page(items: Option<seq<ObservedRoute>>, version: string, next: string)

  /** The list endpoint: the answer to a continuation token ("" is the first request), or an error. */
  type Server = string -> Option<Page>

  /** The token that asks for page `i`. */
  function Token(ps: seq<Page>, i: nat): string
    requires i <= |ps|
  {
    if i == 0 then "" else ps[i - 1].next
  }

  /** `p` may follow `ps`: it answers their token, carries a list, has their version and a new token. */
  ghost predicate Follows(server: Server, ps: seq<Page>, p: Page) {
    && server(Token(ps, |ps|)) == Some(p)
    && p.items.Some? && (ps != [] ==> p.version == ps[0].version)
    && forall q :: q in ps ==> q.next != p.next
  }

  ghost predicate Linked(server: Server, ps: seq<Page>) {
    ps == [] || (Linked(server, ps[..|ps| - 1]) && Follows(server, ps[..|ps| - 1], ps[|ps| - 1]))
  }

  /** A list not yet at its end. */
  ghost predicate Partial(server: Server, ps: seq<Page>) {
    Linked(server, ps) && forall p :: p in ps ==> p.next != ""
  }

  /** A whole list: the last page, and only it, has no continuation. */
  ghost predicate Complete(server: Server, ps: seq<Page>) {
    ps != [] && Linked(server, ps) && ps[|ps| - 1].next == ""
  }

  /** The lists of the pages, in order. */
  ghost function Items(ps: seq<Page>): seq<ObservedRoute> {
    if ps == [] then []
    else Items(ps[..|ps| - 1]) + if ps[|ps| - 1].items.Some? then ps[|ps| - 1].items.value else []
  }

  ghost predicate Bounded(server: Server, tokens: set<string>) {
    forall t :: server(t).Some? && server(t).value.next != "" ==> server(t).value.next in tokens
  }

  lemma Snoc(server: Server, ps: seq<Page>, p: Page)
    ensures Linked(server, ps + [p]) <==> Linked(server, ps) && Follows(server, ps, p)
    ensures Items(ps + [p]) == Items(ps) + if p.items.Some? then p.items.value else []
  {
    assert (ps + [p])[..|ps|] == ps;
  }

  lemma {:induction false} LinkedAt(server: Server, ps: seq<Page>, n: nat)
    requires Linked(server, ps) && n < |ps|
    ensures Follows(server, ps[..n], ps[n])
  {
    if n < |ps| - 1 {
      LinkedAt(server, ps[..|ps| - 1], n);
      assert ps[..|ps| - 1][..n] == ps[..n];
    }
  }

  /** Every whole list starts with the pages read so far and goes on. */
  lemma {:induction false} PartialIsPrefix(server: Server, ps: seq<Page>, whole: seq<Page>)
    requires Partial(server, ps) && Complete(server, whole)
    ensures |ps| < |whole| && whole[..|ps|] == ps && Follows(server, ps, whole[|ps|])
  {
    if ps != [] {
      var n := |ps| - 1;
      PartialIsPrefix(server, ps[..n], whole);
      assert whole[n] == ps[n];
      assert ps[n] in ps;
      assert whole[..|ps|] == whole[..n] + [whole[n]] == ps;
    } else {
      assert whole[..0] == ps;
    }
    LinkedAt(server, whole, |ps|);
  }

  /** A server has at most one whole list. */
  lemma CompleteUnique(server: Server, ps: seq<Page>, qs: seq<Page>)
    requires Complete(server, ps) && Complete(server, qs)
    ensures ps == qs
  {
    if |ps| <= |qs| {
      CompletePrefix(server, ps, qs);
    } else {
      CompletePrefix(server, qs, ps);
    }
  }

  lemma CompletePrefix(server: Server, ps: seq<Page>, qs: seq<Page>)
    requires Complete(server, ps) && Complete(server, qs) && |ps| <= |qs|
    ensures ps == qs
  {
    var n := |ps| - 1;
    assert Partial(server, ps[..n]) by {
      assert forall p :: p in ps[..n] ==> p.next != ps[n].next;
    }
    PartialIsPrefix(server, ps[..n], qs);
    assert ps == ps[..n] + [ps[n]] == qs[..|ps|];
  }

  /** Success is exactly a whole list, in order; it ends because tokens run out. */
  method FetchList(server: Server, ghost tokens: set<string>) returns (r: Option<seq<ObservedRoute>>)
    requires Bounded(server, tokens)
    ensures r.Some? <==> exists ps :: Complete(server, ps)
    ensures forall ps :: Complete(server, ps) ==> r == Some(Items(ps))
  {
    var continuation, version, seen: set<string> := "", "", {};
    var routes: seq<ObservedRoute> := [];
    ghost var ps: seq<Page> := [];
    assert Partial(server, ps) && routes == Items(ps);
    hide Linked, Items;
    while true
      invariant Partial(server, ps) && routes == Items(ps)
      invariant continuation == Token(ps, |ps|)
      invariant continuation == "" <==> ps == []
      invariant ps != [] ==> version == ps[0].version
      invariant forall t :: t in seen <==> exists p :: p in ps && p.next == t
      invariant seen <= tokens
      decreases tokens - seen
    {
      forall whole | Complete(server, whole)
        ensures |ps| < |whole| && Follows(server, ps, whole[|ps|])
      {
        PartialIsPrefix(server, ps, whole);
      }
      var answer := server(continuation);
      if answer == None || answer.value.items == None {
        return None;
      }
      var page := answer.value;
      if continuation != "" && page.version != version {
        return None;
      }
      version := page.version;
      ghost var next := ps + [page];
      Snoc(server, ps, page);
      routes := routes + page.items.value;
      if page.next == "" {
        assert Complete(server, next) && routes == Items(next);
        forall whole | Complete(server, whole)
          ensures Items(whole) == routes
        {
          CompleteUnique(server, whole, next);
        }
        return Some(routes);
      }
      if page.next in seen {
        return None;
      }
      ps := next;
      seen := seen + {page.next};
      continuation := page.next;
    }
  }
}
