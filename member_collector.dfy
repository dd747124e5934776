/**
 * The member collector of the spam-list reporter's content script: it polls
 * the visible member links of a list page, keeps the usernames in a set, and
 * stops after three polls in a row add no new name; it returns the profile
 * URL of each username in the order first seen. The page is an input: poll
 * `i` sees the links `polls[i]`, and once the input runs out the page shows
 * nothing new.
 */
module MemberCollector {
  import opened Wrappers
  import opened Strings

  /** A member link: its absolute href and the pathname `new URL(href)` gives for it. */
  datatype Link = Link(href: string, pathname: string)

  const ExcludedSegment: string := "/i/"
  const ProfilePrefix: string := "https://x.com/"
  const MaxStableChecks: nat := 3

  /**
   * The username a link adds: the second '/'-piece of its path, for links
   * whose href has no "/i/" and where that piece exists and is non-empty.
   */
  function Username(link: Link): Option<string> {
    if Contains(link.href, ExcludedSegment) then None
    else
      var pieces := Split(link.pathname, '/');
      if |pieces| >= 2 && pieces[1] != "" then Some(pieces[1]) else None
  }

  /** A username is a non-empty path piece without '/', and links under "/i/" add none. */
  lemma UsernameSpec(link: Link)
    ensures Username(link).Some? ==> Username(link).value != "" && '/' !in Username(link).value
    ensures Contains(link.href, ExcludedSegment) ==> Username(link).None?
  {
    SplitPiecesAvoidSep(link.pathname, '/');
  }

  /** A profile link "/<user>" or "/<user>/..." outside "/i/" adds exactly `user`. */
  lemma UsernameOfProfilePath(href: string, user: string, rest: string)
    requires !Contains(href, ExcludedSegment)
    requires user != "" && '/' !in user
    requires rest == "" || rest[0] == '/'
    ensures Username(Link(href, "/" + user + rest)) == Some(user)
  {
    var path := "/" + user + rest;
    assert path[0] == '/' && path[1..] == user + rest;
    if rest == "" {
      assert user + rest == user;
      SplitNoSep(user, '/');
    } else {
      assert user + rest == user + ['/'] + rest[1..];
      SplitAfterPiece(user, rest[1..], '/');
    }
  }

  /** Set.prototype.add with the link's username, when it has one. */
  function Add(names: seq<string>, link: Link): seq<string> {
    match Username(link)
    case Some(u) => if u in names then names else names + [u]
    case None => names
  }

  /** The names after adding the usernames of `links` one after another. */
  function AddAll(names: seq<string>, links: seq<Link>): seq<string>
    decreases |links|
  {
    if links == [] then names else Add(AddAll(names, links[..|links| - 1]), links[|links| - 1])
  }

  /** Some link in `links` has username `x`. */
  predicate Seen(links: seq<Link>, x: string) {
    exists l :: l in links && Username(l) == Some(x)
  }

  /**
   * Adding keeps the earlier names in front in their order, adds no
   * duplicate, and adds exactly the usernames of the links.
   */
  lemma {:induction false} AddAllSpec(names: seq<string>, links: seq<Link>)
    ensures names <= AddAll(names, links)
    ensures NoDuplicates(names) ==> NoDuplicates(AddAll(names, links))
    ensures forall x :: x in AddAll(names, links) <==> x in names || Seen(links, x)
    decreases |links|
  {
    if links != [] {
      var init := links[..|links| - 1];
      var last := links[|links| - 1];
      AddAllSpec(names, init);
      assert links == init + [last];
      forall x ensures Seen(links, x) <==> Seen(init, x) || Username(last) == Some(x) {
        if Seen(links, x) {
          var l :| l in links && Username(l) == Some(x);
          if l != last {
            assert l in init;
          }
        }
        if Seen(init, x) {
          var l :| l in init && Username(l) == Some(x);
          assert l in links;
        }
      }
    }
  }

  /** The links visible at poll `i`: none once the input has run out. */
  function Visible(polls: seq<seq<Link>>, i: nat): seq<Link> {
    if i < |polls| then polls[i] else []
  }

  /** The usernames in the set after `k` polls, in insertion order. */
  function Names(polls: seq<seq<Link>>, k: nat): seq<string>
    decreases k
  {
    if k == 0 then [] else AddAll(Names(polls, k - 1), Visible(polls, k - 1))
  }

  /** Some poll before the `k`-th showed a link with username `x`. */
  predicate SeenBefore(polls: seq<seq<Link>>, k: nat, x: string) {
    exists i :: 0 <= i < k && Seen(Visible(polls, i), x)
  }

  /** The names after fewer polls are a prefix: the order is the order of first sighting. */
  lemma {:induction false} NamesPrefix(polls: seq<seq<Link>>, j: nat, k: nat)
    requires j <= k
    ensures Names(polls, j) <= Names(polls, k)
    decreases k
  {
    if j < k {
      NamesPrefix(polls, j, k - 1);
      var before := Names(polls, k - 1);
      assert Names(polls, k) == AddAll(before, Visible(polls, k - 1));
      AddAllSpec(before, Visible(polls, k - 1));
      PrefixTrans(Names(polls, j), before, Names(polls, k));
    }
  }

  lemma PrefixTrans(a: seq<string>, b: seq<string>, c: seq<string>)
    requires a <= b && b <= c
    ensures a <= c
  {
    assert c[..|b|][..|a|] == c[..|a|];
  }

  /** The names never repeat. */
  lemma {:induction false} NamesDistinct(polls: seq<seq<Link>>, k: nat)
    ensures NoDuplicates(Names(polls, k))
    decreases k
  {
    if k > 0 {
      NamesDistinct(polls, k - 1);
      AddAllSpec(Names(polls, k - 1), Visible(polls, k - 1));
    }
  }

  /** The names after `k` polls are exactly the usernames of the links seen in those polls. */
  lemma {:induction false} NamesSeen(polls: seq<seq<Link>>, k: nat)
    ensures forall x :: x in Names(polls, k) <==> SeenBefore(polls, k, x)
    decreases k
  {
    if k > 0 {
      NamesSeen(polls, k - 1);
      AddAllSpec(Names(polls, k - 1), Visible(polls, k - 1));
      forall x ensures x in Names(polls, k) <==> SeenBefore(polls, k, x) {
        if x in Names(polls, k) && !Seen(Visible(polls, k - 1), x) {
          assert SeenBefore(polls, k - 1, x);
          var i :| 0 <= i < k - 1 && Seen(Visible(polls, i), x);
          assert 0 <= i < k && Seen(Visible(polls, i), x);
        }
        if SeenBefore(polls, k, x) && !Seen(Visible(polls, k - 1), x) {
          var i :| 0 <= i < k && Seen(Visible(polls, i), x);
          assert i < k - 1;
          assert SeenBefore(polls, k - 1, x);
        }
      }
    }
  }

  /** The name count after each number of polls. */
  function NameCount(polls: seq<seq<Link>>): nat -> nat {
    (k: nat) => |Names(polls, k)|
  }

  /** The count never shrinks: more polls, at least as many names. */
  ghost predicate Monotone(count: nat -> nat) {
    forall i: nat, j: nat :: i <= j ==> count(i) <= count(j)
  }

  lemma NameCountMonotone(polls: seq<seq<Link>>)
    ensures Monotone(NameCount(polls))
  {
    forall i: nat, j: nat | i <= j ensures NameCount(polls)(i) <= NameCount(polls)(j) {
      NamesPrefix(polls, i, j);
    }
  }

  /** The number of polls, up to and including poll `i`, since `count` last grew. */
  function StableRun(count: nat -> nat, i: nat): (run: nat)
    ensures run <= i
    decreases i
  {
    if i == 0 then 0
    else if count(i) == count(i - 1) then StableRun(count, i - 1) + 1
    else 0
  }

  /** The run of unchanged polls reaches three exactly when the last three polls added nothing. */
  lemma StableRunSpec(count: nat -> nat, k: nat)
    requires Monotone(count)
    ensures StableRun(count, k) >= MaxStableChecks <==> k >= 3 && count(k) == count(k - 3)
  {
    if k >= 3 {
      assert count(k - 3) <= count(k - 2) <= count(k - 1) <= count(k);
      assert StableRun(count, k) >= 3 <==> count(k) == count(k - 1) && StableRun(count, k - 1) >= 2;
      assert StableRun(count, k - 1) >= 2 <==> count(k - 1) == count(k - 2) && StableRun(count, k - 2) >= 1;
      assert StableRun(count, k - 2) >= 1 <==> count(k - 2) == count(k - 3);
    }
  }

  /** One more poll: the names grow by what it shows, and the run grows by one or restarts. */
  lemma PollStep(polls: seq<seq<Link>>, i: nat)
    ensures Names(polls, i + 1) == AddAll(Names(polls, i), Visible(polls, i))
    ensures StableRun(NameCount(polls), i + 1)
      == if |Names(polls, i + 1)| == |Names(polls, i)| then StableRun(NameCount(polls), i) + 1 else 0
    ensures i >= |polls| ==> Names(polls, i + 1) == Names(polls, i)
    ensures NotYetStable(NameCount(polls), i) && StableRun(NameCount(polls), i) < MaxStableChecks
      ==> NotYetStable(NameCount(polls), i + 1)
  {
    if NotYetStable(NameCount(polls), i) && StableRun(NameCount(polls), i) < MaxStableChecks {
      NameCountMonotone(polls);
      NotYetStableStep(NameCount(polls), i);
    }
  }

  /** The polls stop at `k` exactly when the last three of them added no name. */
  lemma NameCountStable(polls: seq<seq<Link>>, k: nat)
    ensures StableRun(NameCount(polls), k) >= MaxStableChecks
      <==> k >= 3 && NameCount(polls)(k) == NameCount(polls)(k - 3)
  {
    NameCountMonotone(polls);
    StableRunSpec(NameCount(polls), k);
  }

  /** Every window of three polls that ended before poll `k` added something to `count`. */
  predicate NotYetStable(count: nat -> nat, k: nat) {
    forall j :: 3 <= j < k ==> count(j - 3) < count(j)
  }

  /** A poll whose run is below three extends the windows that added a name. */
  lemma NotYetStableStep(count: nat -> nat, k: nat)
    requires Monotone(count)
    requires NotYetStable(count, k) && StableRun(count, k) < MaxStableChecks
    ensures NotYetStable(count, k + 1)
  {
    if k >= 3 {
      StableRunSpec(count, k);
      assert count(k - 3) <= count(k);
    }
  }

  /** The profile URL of each username, in order. */
  function ProfileUrls(names: seq<string>): (urls: seq<string>)
    ensures |urls| == |names|
  {
    seq(|names|, i requires 0 <= i < |names| => ProfilePrefix + names[i])
  }

  /** Distinct usernames give distinct URLs, and each URL gives back its username. */
  lemma ProfileUrlsSpec(names: seq<string>)
    requires NoDuplicates(names)
    ensures NoDuplicates(ProfileUrls(names))
    ensures forall i :: 0 <= i < |names| ==>
      StartsWith(ProfileUrls(names)[i], ProfilePrefix) && ProfileUrls(names)[i][|ProfilePrefix|..] == names[i]
  {
    var urls := ProfileUrls(names);
    forall i | 0 <= i < |names|
      ensures StartsWith(urls[i], ProfilePrefix) && urls[i][|ProfilePrefix|..] == names[i]
    {
      assert urls[i] == ProfilePrefix + names[i];
    }
    forall i, j | 0 <= i < j < |urls| ensures urls[i] != urls[j] {
      assert urls[i][|ProfilePrefix|..] == names[i];
      assert urls[j][|ProfilePrefix|..] == names[j];
    }
  }

  /** collectVisibleMembers: adds the username of every visible link to the set. */
  method CollectVisible(names: seq<string>, links: seq<Link>) returns (result: seq<string>)
    ensures result == AddAll(names, links)
  {
    result := names;
    for i := 0 to |links|
      invariant result == AddAll(names, links[..i])
    {
      assert links[..i + 1][..i] == links[..i];
      var link := links[i];
      if !Contains(link.href, ExcludedSegment) {
        var pieces := Split(link.pathname, '/');
        if |pieces| >= 2 && pieces[1] != "" {
          var username := pieces[1];
          if username !in result {
            result := result + [username];
          }
        }
      }
    }
    assert links[..|links|] == links;
  }

  /**
   * collectMembers: polls until three polls in a row leave the name count
   * unchanged and returns the profile URLs with the number of polls made.
   * It stops at the first poll where that holds.
   */
  method CollectMembers(polls: seq<seq<Link>>) returns (urls: seq<string>, pollCount: nat)
    ensures pollCount >= 3 && NameCount(polls)(pollCount) == NameCount(polls)(pollCount - 3)
    ensures forall j :: 3 <= j < pollCount ==> NameCount(polls)(j - 3) < NameCount(polls)(j)
    ensures pollCount <= |polls| + MaxStableChecks
    ensures urls == ProfileUrls(Names(polls, pollCount))
  {
    var userUrls: seq<string> := [];
    var previousCount := 0;
    var stableCount := 0;
    var i: nat := 0;
    while stableCount < MaxStableChecks
      invariant i <= |polls| + MaxStableChecks
      invariant userUrls == Names(polls, i)
      invariant previousCount == |userUrls|
      invariant stableCount == StableRun(NameCount(polls), i)
      invariant i >= |polls| ==> stableCount >= i - |polls|
      invariant NotYetStable(NameCount(polls), i)
      decreases |polls| + MaxStableChecks - i
    {
      PollStep(polls, i);
      userUrls := CollectVisible(userUrls, Visible(polls, i));
      var currentCount := |userUrls|;
      if currentCount == previousCount {
        stableCount := stableCount + 1;
      } else {
        stableCount := 0;
        previousCount := currentCount;
      }
      i := i + 1;
    }
    pollCount := i;
    NameCountStable(polls, pollCount);
    urls := ProfileUrls(userUrls);
  }
}
