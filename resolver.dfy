/**
 * `geocode_landmark`: look a landmark up with the search service, first as
 * "name, location, California, USA" and, when that finds nothing, as
 * "name, California, USA".  A network failure (`URLError`, `HTTPError`,
 * `TimeoutError`) starts the attempt over with the first query while
 * attempts remain; any other error ends the lookup with no result.
 *
 * The service is a `Service`: the response to the full or the short query
 * in a given attempt.  Each attempt sends each query at most once, so this
 * names every request of a lookup.
 */
module Resolver {
  import opened Wrappers

  /** The first hit of a search: its coordinates and, if the service sent one, its display name. */
  datatype Candidate = Candidate(lat: string, lon: string, displayName: Option<string>)

  /** What one search request comes back with. */
  datatype Response =
    | Empty
    | Hit(first: Candidate)
    | Transient
    | Failure

  /** The two queries of an attempt: the full one and the short one sent after it found nothing. */
  datatype Query = Full | Short

  /** The responses of the service, by attempt and query. */
  type Service = (nat, Query) -> Response

  /** A successful lookup: latitude, longitude and display name. */
  datatype GeoPoint = GeoPoint(lat: string, lon: string, displayName: string)

  /** The result of a lookup and the queries it sent, in order. */
  datatype Resolution = Resolution(result: Option<GeoPoint>, sent: seq<string>)

  /** The full query: the name, `, `, the location and `, California, USA`. */
  function PrimaryQuery(name: string, location: string): (q: string)
    ensures |q| == |name| + 2 + |location| + 17
    ensures q[..|name|] == name && q[|name|..|name| + 2] == ", "
    ensures q[|name| + 2..|name| + 2 + |location|] == location && q[|name| + 2 + |location|..] == ", California, USA"
  {
    name + ", " + location + ", California, USA"
  }

  /** The short query: the name and `, California, USA`. */
  function FallbackQuery(name: string): (q: string)
    ensures |q| == |name| + 17
    ensures q[..|name|] == name && q[|name|..] == ", California, USA"
  {
    name + ", California, USA"
  }

  /** The two queries are never the same, so the requests tell which one each was. */
  lemma QueriesDiffer(name: string, location: string)
    ensures PrimaryQuery(name, location) != FallbackQuery(name)
  {
    assert |PrimaryQuery(name, location)| == |FallbackQuery(name)| + |location| + 2;
  }

  /** A hit as the caller sees it; the display name defaults to the empty string. */
  function Located(c: Candidate): (p: GeoPoint)
    ensures p.lat == c.lat && p.lon == c.lon
    ensures p.displayName == (if c.displayName.Some? then c.displayName.value else "")
  {
    GeoPoint(c.lat, c.lon, c.displayName.GetOr(""))
  }

  /** `sent` followed by the requests of `rest`, with the result of `rest`. */
  function Then(sent: seq<string>, rest: Resolution): Resolution
  {
    Resolution(rest.result, sent + rest.sent)
  }

  /** How one attempt ends: with a result, or on a network failure that may start the next attempt. */
  datatype Step =
    | Done(result: Option<GeoPoint>, sent: seq<string>)
    | Retry(sent: seq<string>)

  /** One attempt, where `first` answers the full query and `second` the short one. */
  function Attempt(primary: string, fallback: string, first: Response, second: Response): (s: Step)
    ensures s.sent == (if first.Empty? then [primary, fallback] else [primary])
    ensures s.Retry? <==> first.Transient? || (first.Empty? && second.Transient?)
    ensures s.Done? && s.result.Some? <==> first.Hit? || (first.Empty? && second.Hit?)
  {
    match first
    case Hit(c) => Done(Some(Located(c)), [primary])
    case Failure => Done(None, [primary])
    case Transient => Retry([primary])
    case Empty =>
      match second
      case Hit(c) => Done(Some(Located(c)), [primary, fallback])
      case Transient => Retry([primary, fallback])
      case Empty => Done(None, [primary, fallback])
      case Failure => Done(None, [primary, fallback])
  }

  /** Attempt number `a` of a lookup. */
  function AttemptAt(primary: string, fallback: string, service: Service, a: nat): Step
  {
    Attempt(primary, fallback, service(a, Full), service(a, Short))
  }

  /** The response attempt `a` acts on: the short query's when the full query found nothing, else the full query's. */
  function Decisive(service: Service, a: nat): Response
  {
    if service(a, Full) == Empty then service(a, Short) else service(a, Full)
  }

  /**
   * An attempt sends the short query exactly when the full one found
   * nothing; it ends on a network failure exactly when the response it acts
   * on is one; otherwise it finds a place exactly when that response is a
   * hit, and then that hit.
   */
  lemma AttemptEnds(primary: string, fallback: string, service: Service, a: nat)
    ensures var s := AttemptAt(primary, fallback, service, a);
      s.sent == (if service(a, Full) == Empty then [primary, fallback] else [primary])
    ensures var s := AttemptAt(primary, fallback, service, a);
      s.Retry? <==> Decisive(service, a) == Transient
    ensures var s := AttemptAt(primary, fallback, service, a);
      s.Done? ==> s.result == (if Decisive(service, a).Hit? then Some(Located(Decisive(service, a).first)) else None)
  {
  }

  /**
   * The lookup from attempt `attempt` on (counting from 0, `retries`
   * attempts in all).  A network failure in the last attempt ends the
   * lookup with nothing.
   */
  function ResolveFrom(primary: string, fallback: string, retries: int, service: Service, attempt: nat): (r: Resolution)
    ensures attempt < retries ==> r.sent != [] && r.sent[0] == primary
    ensures |r.sent| <= if attempt < retries then 2 * (retries - attempt) else 0
    ensures r.result.Some? ==> attempt < retries
    decreases retries - attempt
  {
    if attempt >= retries then Resolution(None, [])
    else
      match AttemptAt(primary, fallback, service, attempt)
      case Done(result, sent) => Resolution(result, sent)
      case Retry(sent) =>
        if attempt < retries - 1 then Then(sent, ResolveFrom(primary, fallback, retries, service, attempt + 1))
        else Resolution(None, sent)
  }

  /** `geocode_landmark(name, location, retries)` against the service `service`. */
  function Resolve(name: string, location: string, retries: int, service: Service): (r: Resolution)
    ensures retries > 0 ==> r.sent != [] && r.sent[0] == PrimaryQuery(name, location)
    ensures |r.sent| <= if retries > 0 then 2 * retries else 0
    ensures r.result.Some? ==> retries > 0
  {
    ResolveFrom(PrimaryQuery(name, location), FallbackQuery(name), retries, service, 0)
  }

  /** A lookup with no attempts left sends nothing and finds nothing. */
  lemma ResolveNone(primary: string, fallback: string, retries: int, service: Service, attempt: nat)
    requires attempt >= retries
    ensures ResolveFrom(primary, fallback, retries, service, attempt) == Resolution(None, [])
  {
  }

  /** A lookup whose current attempt ends it with a result or with nothing. */
  lemma ResolveDone(primary: string, fallback: string, retries: int, service: Service, attempt: nat)
    requires attempt < retries && AttemptAt(primary, fallback, service, attempt).Done?
    ensures var s := AttemptAt(primary, fallback, service, attempt);
      ResolveFrom(primary, fallback, retries, service, attempt) == Resolution(s.result, s.sent)
  {
  }

  /** A lookup whose last attempt meets a network failure. */
  lemma ResolveLast(primary: string, fallback: string, retries: int, service: Service, attempt: nat)
    requires attempt == retries - 1 && AttemptAt(primary, fallback, service, attempt).Retry?
    ensures ResolveFrom(primary, fallback, retries, service, attempt) ==
      Resolution(None, AttemptAt(primary, fallback, service, attempt).sent)
  {
  }

  /** A lookup that starts over after a network failure. */
  lemma ResolveRetry(primary: string, fallback: string, retries: int, service: Service, attempt: nat)
    requires attempt < retries - 1 && AttemptAt(primary, fallback, service, attempt).Retry?
    ensures ResolveFrom(primary, fallback, retries, service, attempt) ==
      Then(AttemptAt(primary, fallback, service, attempt).sent, ResolveFrom(primary, fallback, retries, service, attempt + 1))
  {
  }

  /** `geocode_landmark`, step by step: the attempts loop, each sending the full query and, after an empty answer, the short one. */
  method Geocode(name: string, location: string, retries: int, service: Service) returns (result: Option<GeoPoint>, sent: seq<string>)
    ensures Resolution(result, sent) == Resolve(name, location, retries, service)
  {
    var query := PrimaryQuery(name, location);
    var simpleQuery := FallbackQuery(name);
    sent := [];
    var attempt: nat := 0;
    while attempt < retries
      invariant Then(sent, ResolveFrom(query, simpleQuery, retries, service, attempt)) == Resolve(name, location, retries, service)
      decreases retries - attempt
    {
      ghost var before := sent;
      ghost var step := AttemptAt(query, simpleQuery, service, attempt);
      var response := service(attempt, Full);
      sent := sent + [query];
      match response {
        case Hit(c) =>
          ResolveDone(query, simpleQuery, retries, service, attempt);
          return Some(Located(c)), sent;
        case Failure =>
          ResolveDone(query, simpleQuery, retries, service, attempt);
          return None, sent;
        case Transient =>
          if attempt >= retries - 1 {
            ResolveLast(query, simpleQuery, retries, service, attempt);
            return None, sent;
          }
        case Empty =>
          var simple := service(attempt, Short);
          sent := sent + [simpleQuery];
          if simple.Hit? {
            ResolveDone(query, simpleQuery, retries, service, attempt);
            return Some(Located(simple.first)), sent;
          } else if !simple.Transient? {
            ResolveDone(query, simpleQuery, retries, service, attempt);
            return None, sent;
          } else if attempt >= retries - 1 {
            ResolveLast(query, simpleQuery, retries, service, attempt);
            return None, sent;
          }
      }
      assert sent == before + step.sent;
      ResolveRetry(query, simpleQuery, retries, service, attempt);
      ThenThen(before, step.sent, ResolveFrom(query, simpleQuery, retries, service, attempt + 1));
      attempt := attempt + 1;
    }
    return None, sent;
  }

  lemma ThenThen(a: seq<string>, b: seq<string>, r: Resolution)
    ensures Then(a, Then(b, r)) == Then(a + b, r)
  {
    assert a + (b + r.sent) == (a + b) + r.sent;
  }

  /** Attempt `a` ends on a network failure. */
  predicate Fails(service: Service, a: nat)
  {
    service(a, Full) == Transient || (service(a, Full) == Empty && service(a, Short) == Transient)
  }

  /**
   * The attempt a lookup from attempt `attempt` on ends with: the first
   * that does not end on a network failure, or the last one allowed.
   */
  function Final(service: Service, retries: int, attempt: nat): (e: nat)
    requires attempt < retries
    ensures attempt <= e < retries
    ensures forall a :: attempt <= a < e ==> Fails(service, a)
    ensures e < retries - 1 ==> !Fails(service, e)
    decreases retries - attempt
  {
    if attempt == retries - 1 || !Fails(service, attempt) then attempt else Final(service, retries, attempt + 1)
  }

  /** The requests of attempts `lo` up to, not including, `hi`, in order. */
  function Sent(primary: string, fallback: string, service: Service, lo: nat, hi: nat): seq<string>
    decreases hi - lo
  {
    if lo >= hi then [] else AttemptAt(primary, fallback, service, lo).sent + Sent(primary, fallback, service, lo + 1, hi)
  }

  /**
   * A lookup makes the attempts from `attempt` to `Final` and no others: it sends
   * their requests and nothing else, and its result is that of the final
   * attempt, or nothing when that one too met a network failure.
   */
  lemma {:induction false} ResolveEnds(primary: string, fallback: string, retries: int, service: Service, attempt: nat)
    requires attempt < retries
    ensures var r := ResolveFrom(primary, fallback, retries, service, attempt);
      var e := Final(service, retries, attempt);
      r.sent == Sent(primary, fallback, service, attempt, e + 1) &&
      r.result == (if Fails(service, e) then None else AttemptAt(primary, fallback, service, e).result)
    decreases retries - attempt
  {
    AttemptEnds(primary, fallback, service, attempt);
    if AttemptAt(primary, fallback, service, attempt).Done? {
      ResolveDone(primary, fallback, retries, service, attempt);
    } else if attempt == retries - 1 {
      ResolveLast(primary, fallback, retries, service, attempt);
    } else {
      ResolveRetry(primary, fallback, retries, service, attempt);
      ResolveEnds(primary, fallback, retries, service, attempt + 1);
    }
  }

  /** How many times `q` is among `sent`. */
  function Count(sent: seq<string>, q: string): (c: nat)
    ensures c <= |sent|
  {
    if sent == [] then 0 else (if sent[0] == q then 1 else 0) + Count(sent[1..], q)
  }

  lemma {:induction false} CountAppend(a: seq<string>, b: seq<string>, q: string)
    ensures Count(a + b, q) == Count(a, q) + Count(b, q)
  {
    if a != [] {
      assert (a + b)[1..] == a[1..] + b;
      CountAppend(a[1..], b, q);
    } else {
      assert a + b == b;
    }
  }

  /** Attempts `lo` up to, not including, `hi` send the full query once each, and one or two requests each. */
  lemma {:induction false} SentCount(primary: string, fallback: string, service: Service, lo: nat, hi: nat)
    requires primary != fallback && lo <= hi
    ensures Count(Sent(primary, fallback, service, lo, hi), primary) == hi - lo
    ensures hi - lo <= |Sent(primary, fallback, service, lo, hi)| <= 2 * (hi - lo)
    decreases hi - lo
  {
    if lo < hi {
      var s := AttemptAt(primary, fallback, service, lo).sent;
      AttemptEnds(primary, fallback, service, lo);
      assert Count(s, primary) == 1 by {
        if service(lo, Full) == Empty {
          assert s[1..][1..] == [];
        } else {
          assert s[1..] == [];
        }
      }
      SentCount(primary, fallback, service, lo + 1, hi);
      CountAppend(s, Sent(primary, fallback, service, lo + 1, hi), primary);
    }
  }

  /**
   * `geocode_landmark` as a whole.  With no attempts it sends nothing and
   * returns `None`.  Otherwise it makes attempts 0 to `Final`, sending the
   * full query once in each and the short query after each empty answer
   * to it; it returns the place found by the response the final attempt
   * acts on when that is a hit, and `None` when that response is an
   * unexpected error, an empty answer to both queries, or a network
   * failure in the last attempt allowed.
   */
  lemma GeocodeOutcome(name: string, location: string, retries: int, service: Service)
    ensures var r := Resolve(name, location, retries, service);
      retries <= 0 ==> r == Resolution(None, [])
    ensures var r := Resolve(name, location, retries, service);
      var primary := PrimaryQuery(name, location);
      retries > 0 ==>
        var e := Final(service, retries, 0);
        r.sent == Sent(primary, FallbackQuery(name), service, 0, e + 1) &&
        Count(r.sent, primary) == e + 1 && e + 1 <= |r.sent| <= 2 * (e + 1)
    ensures var r := Resolve(name, location, retries, service);
      retries > 0 ==>
        var d := Decisive(service, Final(service, retries, 0));
        (r.result.Some? <==> d.Hit?) &&
        (r.result.Some? ==> r.result == Some(Located(d.first))) &&
        (r.result.None? ==> d == Failure || d == Empty || (d == Transient && Final(service, retries, 0) == retries - 1))
  {
    var primary := PrimaryQuery(name, location);
    var fallback := FallbackQuery(name);
    if retries <= 0 {
      ResolveNone(primary, fallback, retries, service, 0);
    } else {
      var e := Final(service, retries, 0);
      QueriesDiffer(name, location);
      ResolveEnds(primary, fallback, retries, service, 0);
      SentCount(primary, fallback, service, 0, e + 1);
      AttemptEnds(primary, fallback, service, e);
    }
  }
}
