/** Category discovery on the master page: every hyperlink whose href contains
    "/category" is made absolute with the site prefix. All of them go, in
    order and with duplicates, into the list of pages to fetch; those whose
    text is not "more" (in any letter case) also go into a dictionary from
    URL to category name, a later link overwriting an earlier one. */
module Categories {
  import opened Results
  import opened Text

  const Prefix: string := "https://www.adafruit.com"

  const CategoryMarker: string := "/category"

  /** A hyperlink of the master page: its `href` attribute and its text. */
  datatype Link = Link(href: string, text: string)

  predicate IsCategoryLink(l: Link) {
    Contains(l.href, CategoryMarker)
  }

  function Url(l: Link): string {
    Prefix + l.href
  }

  /** The link is a category link to `url` that supplies a category name. */
  predicate Names(l: Link, url: string) {
    IsCategoryLink(l) && !IsMoreLabel(l.text) && Url(l) == url
  }

  /** The ordered list of category pages to fetch. */
  function CategoryUrls(links: seq<Link>): (urls: seq<string>)
    ensures |urls| <= |links|
  {
    if |links| == 0 then []
    else (if IsCategoryLink(links[0]) then [Url(links[0])] else []) + CategoryUrls(links[1..])
  }

  /** The dictionary from category URL to category name, filled in link order. */
  function CategoryNames(links: seq<Link>): map<string, string>
  {
    if |links| == 0 then map[]
    else
      var names := CategoryNames(links[..|links| - 1]);
      var l := links[|links| - 1];
      if IsCategoryLink(l) && !IsMoreLabel(l.text) then names[Url(l) := l.text] else names
  }

  /** The URL list of a concatenation is the concatenation of the URL lists: order and
      duplicates are kept. */
  lemma {:induction false} CategoryUrlsAppend(a: seq<Link>, b: seq<Link>)
    ensures CategoryUrls(a + b) == CategoryUrls(a) + CategoryUrls(b)
  {
    if |a| == 0 {
      assert a + b == b;
    } else {
      var head := if IsCategoryLink(a[0]) then [Url(a[0])] else [];
      var rest, tail := CategoryUrls(a[1..]), CategoryUrls(b);
      assert (a + b)[0] == a[0];
      assert (a + b)[1..] == a[1..] + b;
      assert CategoryUrls(a + b) == head + CategoryUrls(a[1..] + b);
      CategoryUrlsAppend(a[1..], b);
      assert head + (rest + tail) == (head + rest) + tail;
    }
  }

  /** A URL is fetched exactly when some category link points to it, "more" links included. */
  lemma {:induction false} CategoryUrlsMembers(links: seq<Link>)
    ensures forall u :: u in CategoryUrls(links) <==>
      exists i :: 0 <= i < |links| && IsCategoryLink(links[i]) && Url(links[i]) == u
  {
    if |links| > 0 {
      CategoryUrlsMembers(links[1..]);
      forall u | u in CategoryUrls(links)
        ensures exists i :: 0 <= i < |links| && IsCategoryLink(links[i]) && Url(links[i]) == u
      {
        if !(IsCategoryLink(links[0]) && Url(links[0]) == u) {
          assert u in CategoryUrls(links[1..]);
          var i :| 0 <= i < |links[1..]| && IsCategoryLink(links[1..][i]) && Url(links[1..][i]) == u;
          assert links[1..][i] == links[i + 1];
        }
      }
      forall u, i | 0 <= i < |links| && IsCategoryLink(links[i]) && Url(links[i]) == u
        ensures u in CategoryUrls(links)
      {
        if i > 0 {
          assert links[1..][i - 1] == links[i];
        }
      }
    }
  }

  /** Link `i` is the last link of the page that names its URL. */
  predicate LastNaming(links: seq<Link>, i: nat)
    requires i < |links|
  {
    Names(links[i], Url(links[i])) && forall j :: i < j < |links| ==> !Names(links[j], Url(links[i]))
  }

  /** Some non-"more" category link of the page points to `url`. */
  predicate NamedAnywhere(links: seq<Link>, url: string) {
    exists j :: 0 <= j < |links| && Names(links[j], url)
  }

  /** The dictionary holds exactly the URLs some non-"more" category link names. */
  lemma {:induction false} CategoryNamesKeys(links: seq<Link>)
    ensures forall u :: u in CategoryNames(links) <==> NamedAnywhere(links, u)
  {
    if |links| > 0 {
      var init := links[..|links| - 1];
      var l := links[|links| - 1];
      var names := CategoryNames(init);
      assert CategoryNames(links) == if Names(l, Url(l)) then names[Url(l) := l.text] else names;
      CategoryNamesKeys(init);
      forall u | u in CategoryNames(links)
        ensures NamedAnywhere(links, u)
      {
        if Names(l, u) {
          assert Names(links[|links| - 1], u);
        } else {
          assert u in names;
          assert NamedAnywhere(init, u);
          var i :| 0 <= i < |init| && Names(init[i], u);
          assert init[i] == links[i];
        }
      }
      forall u | NamedAnywhere(links, u)
        ensures u in CategoryNames(links)
      {
        var i :| 0 <= i < |links| && Names(links[i], u);
        if i < |init| {
          assert init[i] == links[i];
          assert NamedAnywhere(init, u);
        }
      }
    }
  }

  /** Each URL in the dictionary maps to the text of the last link that names it. */
  lemma {:induction false} CategoryNamesLastWins(links: seq<Link>)
    ensures forall i :: 0 <= i < |links| && LastNaming(links, i) ==>
      Url(links[i]) in CategoryNames(links) && CategoryNames(links)[Url(links[i])] == links[i].text
  {
    if |links| > 0 {
      var init := links[..|links| - 1];
      var l := links[|links| - 1];
      var names := CategoryNames(init);
      assert CategoryNames(links) == if Names(l, Url(l)) then names[Url(l) := l.text] else names;
      CategoryNamesLastWins(init);
      forall i | 0 <= i < |links| && LastNaming(links, i)
        ensures Url(links[i]) in CategoryNames(links) && CategoryNames(links)[Url(links[i])] == links[i].text
      {
        if i < |init| {
          assert forall j :: 0 <= j < |init| ==> init[j] == links[j];
          assert !Names(l, Url(links[i]));
          assert LastNaming(init, i);
        }
      }
    }
  }

  /** Every named URL is also fetched, and a URL whose only links are "more" links is
      fetched but has no name. */
  lemma NamedUrlsAreFetched(links: seq<Link>)
    ensures forall u :: u in CategoryNames(links) ==> u in CategoryUrls(links)
    ensures forall i :: 0 <= i < |links| && IsCategoryLink(links[i]) && !NamedAnywhere(links, Url(links[i])) ==>
      Url(links[i]) in CategoryUrls(links) && Url(links[i]) !in CategoryNames(links)
  {
    CategoryNamesKeys(links);
    CategoryUrlsMembers(links);
  }
}
