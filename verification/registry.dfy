/**
 * The list operations behind the connection registry: `indexOf` with strict
 * equality, `splice(index, 1)`, the removal `unregisterConnection` performs
 * with them, and the deliveries one `sendAll` makes.
 */
module Registry {

  /** One `send` of `msg` on link `to`. */
  datatype Delivery<L, M> = Delivery(to: L, msg: M)

  /** `Array.prototype.indexOf`: the first index holding `x`, or -1. */
  function IndexOf<T(==)>(s: seq<T>, x: T): (i: int)
    ensures -1 <= i < |s|
    ensures i == -1 <==> x !in s
    ensures 0 <= i ==> s[i] == x && x !in s[..i]
    decreases |s|
  {
    if s == [] then -1
    else if s[0] == x then 0
    else
      var j := IndexOf(s[1..], x);
      if j == -1 then -1
      else
        assert s[..j + 1] == [s[0]] + s[1..][..j];
        j + 1
  }

  /** `splice(i, 1)`: drop the element at `i`, keeping the others in order. */
  function RemoveAt<T>(s: seq<T>, i: nat): (r: seq<T>)
    requires i < |s|
    ensures |r| == |s| - 1
    ensures forall j | 0 <= j < i :: r[j] == s[j]
    ensures forall j | i <= j < |r| :: r[j] == s[j + 1]
    ensures multiset(r) + multiset{s[i]} == multiset(s)
  {
    assert s == s[..i] + [s[i]] + s[i + 1..];
    s[..i] + s[i + 1..]
  }

  /** The list `unregisterConnection(x)` leaves: unchanged when `x` is absent,
      otherwise without its first occurrence. */
  function Unregistered<T(==)>(s: seq<T>, x: T): (r: seq<T>)
    ensures x !in s ==> r == s
    ensures x in s ==> |r| == |s| - 1
    ensures multiset(r) == multiset(s) - multiset{x}
  {
    var i := IndexOf(s, x);
    if i == -1 then s else RemoveAt(s, i)
  }

  /** The deliveries `sendAll(m)` makes, in list order. */
  function Fanout<L, M>(links: seq<L>, m: M): (r: seq<Delivery<L, M>>)
    ensures |r| == |links|
    ensures forall i | 0 <= i < |links| :: r[i] == Delivery(links[i], m)
    decreases |links|
  {
    if links == [] then []
    else Fanout(links[..|links| - 1], m) + [Delivery(links[|links| - 1], m)]
  }

  /** The deliveries of several `sendAll` calls, one after the other. */
  function FanoutAll<L, M>(links: seq<L>, ms: seq<M>): (r: seq<Delivery<L, M>>)
    ensures |r| == |links| * |ms|
    decreases |ms|
  {
    if ms == [] then [] else Fanout(links, ms[0]) + FanoutAll(links, ms[1..])
  }

  /** Removing the first occurrence keeps every other element in relative
      order: what precedes the removed index, then what follows it. */
  lemma {:induction false} UnregisterRemovesFirst<T>(s: seq<T>, x: T)
    requires x in s
    ensures exists k | 0 <= k < |s| ::
              (s[k] == x && x !in s[..k] && Unregistered(s, x) == s[..k] + s[k + 1..])
  {
    var k := IndexOf(s, x);
    var r := Unregistered(s, x);
    assert r == s[..k] + s[k + 1..] by {
      assert |r| == |s[..k] + s[k + 1..]|;
      forall j | 0 <= j < |r| ensures r[j] == (s[..k] + s[k + 1..])[j] {
      }
    }
  }

  /** Unregistering a link that is not (or no longer) registered changes
      nothing; so a second unregister after a successful one is harmless
      whenever the link was registered once. */
  lemma UnregisterTwiceIsOnce<T>(s: seq<T>, x: T)
    requires multiset(s)[x] <= 1
    ensures Unregistered(Unregistered(s, x), x) == Unregistered(s, x)
    ensures x !in Unregistered(s, x)
  {
  }

  /** Registering a link that was absent and unregistering it restores the
      list exactly. */
  lemma RegisterThenUnregister<T>(s: seq<T>, x: T)
    requires x !in s
    ensures Unregistered(s + [x], x) == s
  {
  }

  /** Every registered link is sent `m` once per registration: exactly once
      when registered once, never when not registered. */
  lemma {:induction false} FanoutDeliversOncePerLink<L, M>(links: seq<L>, m: M, c: L)
    ensures multiset(Fanout(links, m))[Delivery(c, m)] == multiset(links)[c]
    decreases |links|
  {
    if links != [] {
      var init := links[..|links| - 1];
      FanoutDeliversOncePerLink(init, m, c);
      assert links == init + [links[|links| - 1]];
    }
  }

  /** No link outside the registry is ever sent anything. */
  lemma FanoutOnlyToRegistered<L, M>(links: seq<L>, m: M, d: Delivery<L, M>)
    requires d in Fanout(links, m)
    ensures d.to in links && d.msg == m
  {
  }
}
