/** The lattice of information flow tags: secrecy grows by union, integrity shrinks by intersection. */
module IfcTags {

  type TagId = nat

  /** `Bottom` stands for a value that the analysis has not reached yet. */
  datatype Tags = Bottom | Tags(secrecy: set<TagId>, integrity: set<TagId>) {

    function Join(other: Tags): Tags {
      if Bottom? then other
      else if other.Bottom? then this
      else Tags(secrecy + other.secrecy, integrity * other.integrity)
    }

    predicate Leq(other: Tags) {
      Bottom? || (other.Tags? && secrecy <= other.secrecy && other.integrity <= integrity)
    }

    function SetIntegrity(tag: TagId): Tags {
      if Bottom? then this else this.(integrity := integrity + {tag})
    }

    function SetSecrecy(tag: TagId): Tags {
      if Bottom? then this else this.(secrecy := secrecy + {tag})
    }

    function ClearSecrecy(tag: TagId): Tags {
      if Bottom? then this else this.(secrecy := secrecy - {tag})
    }

    /** Asking about integrity or secrecy of bottom aborts. */
    predicate HasIntegrity(tag: TagId)
      requires Tags?
    {
      tag in integrity
    }

    predicate HasNoSecrecy()
      requires Tags?
    {
      secrecy == {}
    }
  }

  lemma LeqIsPartialOrder(a: Tags, b: Tags, c: Tags)
    ensures a.Leq(a)
    ensures a.Leq(b) && b.Leq(a) ==> a == b
    ensures a.Leq(b) && b.Leq(c) ==> a.Leq(c)
  {
  }

  /** `Join` is the least upper bound, so an order-independent way to accumulate states. */
  lemma JoinIsLeastUpperBound(a: Tags, b: Tags, c: Tags)
    ensures a.Leq(a.Join(b)) && b.Leq(a.Join(b))
    ensures a.Leq(c) && b.Leq(c) ==> a.Join(b).Leq(c)
    ensures a.Join(b) == b.Join(a)
    ensures a.Join(b).Join(c) == a.Join(b.Join(c))
  {
  }

  /** The loop behind an intersection: keep the tags that the other set contains. */
  method IntersectTags(a: set<TagId>, b: set<TagId>) returns (r: set<TagId>)
    ensures r == a * b
  {
    r := {};
    var left := a;
    while left != {}
      invariant left <= a && r == (a - left) * b
      decreases |left|
    {
      var tag :| tag in left;
      if tag in b {
        r := r + {tag};
      }
      left := left - {tag};
    }
  }

  method JoinTags(a: Tags, b: Tags) returns (r: Tags)
    ensures r == a.Join(b)
  {
    if a.Bottom? {
      return b;
    }
    if b.Bottom? {
      return a;
    }
    var integrity := IntersectTags(a.integrity, b.integrity);
    return Tags(a.secrecy + b.secrecy, integrity);
  }
}
