/** `applySecurityMeasures`: adds a Content-Security-Policy and a
    Referrer-Policy meta tag unless the document already has one, disarms
    links whose href uses the `javascript:` or `data:` scheme, and gives
    `target="_blank"` links a `rel` when they have none. */
module Security {
  import opened Common

  /** An anchor's attributes (`None` when the attribute is missing) and
      whether a click listener that cancels navigation has been attached. */
  datatype Link = Link(href: Option<string>, target: Option<string>, rel: Option<string>, clickBlocked: bool)

  /** A `<meta>` tag: its `http-equiv`, `name` and `content` attributes. */
  datatype Meta = Meta(httpEquiv: Option<string>, name: Option<string>, content: string)

  /** The document as the hardening step sees it: the meta tags in document
      order (new ones are appended to the head) and the anchors. */
  datatype Page = Page(metas: seq<Meta>, links: seq<Link>)

  const CspPolicy: string :=
    "default-src 'self'; script-src 'self' https://cdn.jsdelivr.net https://cdnjs.cloudflare.com 'unsafe-inline'; style-src 'self' https://fonts.googleapis.com https://cdnjs.cloudflare.com 'unsafe-inline'; img-src 'self' https://i.ytimg.com https://agricultura.gravata.pe.gov.br https://cdn-icons-png.flaticon.com https://png.pngtree.com data:; font-src 'self' https://fonts.gstatic.com https://cdnjs.cloudflare.com; connect-src 'self'; frame-src 'none'; object-src 'none';"

  const CspMeta: Meta := Meta(Some("Content-Security-Policy"), None, CspPolicy)
  const ReferrerMeta: Meta := Meta(None, Some("referrer"), "strict-origin-when-cross-origin")
  const SafeRel: string := "noopener noreferrer"

  /** `meta[http-equiv="Content-Security-Policy"]` */
  predicate IsCsp(m: Meta)
  {
    m.httpEquiv == Some("Content-Security-Policy")
  }

  /** `meta[name="referrer"]` */
  predicate IsReferrer(m: Meta)
  {
    m.name == Some("referrer")
  }

  predicate HasCsp(metas: seq<Meta>)
  {
    exists i :: 0 <= i < |metas| && IsCsp(metas[i])
  }

  predicate HasReferrer(metas: seq<Meta>)
  {
    exists i :: 0 <= i < |metas| && IsReferrer(metas[i])
  }

  /** The href test: present, non-empty, and starting with one of the two
      schemes, compared as written. */
  predicate IsUnsafeHref(href: Option<string>)
  {
    href.Some? && href.value != "" &&
    (StartsWith(href.value, "javascript:") || StartsWith(href.value, "data:"))
  }

  function Disarm(l: Link): Link
  {
    if IsUnsafeHref(l.href) then l.(href := Some("#"), clickBlocked := true) else l
  }

  /** `a[target="_blank"]` */
  predicate OpensNewContext(l: Link)
  {
    l.target == Some("_blank")
  }

  /** `!link.getAttribute('rel')`: missing or empty. */
  predicate LacksRel(l: Link)
  {
    l.rel == None || l.rel == Some("")
  }

  function Isolate(l: Link): Link
  {
    if OpensNewContext(l) && LacksRel(l) then l.(rel := Some(SafeRel)) else l
  }

  /** What one run does to one anchor: first the href pass, then the rel pass. */
  function Harden(l: Link): Link
  {
    Isolate(Disarm(l))
  }

  /** The head after one run: the CSP tag appended if none matched, then the
      referrer tag appended if none matched. */
  function AddMetas(metas: seq<Meta>): seq<Meta>
  {
    var m1 := if HasCsp(metas) then metas else metas + [CspMeta];
    if HasReferrer(m1) then m1 else m1 + [ReferrerMeta]
  }

  /** Every link hardened in turn. */
  function HardenLinks(links: seq<Link>): seq<Link>
  {
    seq(|links|, i requires 0 <= i < |links| => Harden(links[i]))
  }

  /** The page after one run of `applySecurityMeasures`. */
  function Secured(p: Page): Page
  {
    Page(AddMetas(p.metas), HardenLinks(p.links))
  }

  function ApplyTimes(p: Page, n: nat): Page
    decreases n
  {
    if n == 0 then p else ApplyTimes(Secured(p), n - 1)
  }

  /** How many tags of the document match a selector. */
  function CountCsp(metas: seq<Meta>): (c: nat)
    ensures c == 0 <==> !HasCsp(metas)
    decreases |metas|
  {
    if metas == [] then 0
    else
      assert forall i :: 0 < i < |metas| ==> metas[i] == metas[1..][i - 1];
      (if IsCsp(metas[0]) then 1 else 0) + CountCsp(metas[1..])
  }

  function CountReferrer(metas: seq<Meta>): (c: nat)
    ensures c == 0 <==> !HasReferrer(metas)
    decreases |metas|
  {
    if metas == [] then 0
    else
      assert forall i :: 0 < i < |metas| ==> metas[i] == metas[1..][i - 1];
      (if IsReferrer(metas[0]) then 1 else 0) + CountReferrer(metas[1..])
  }

  lemma {:induction false} CountCspAppend(metas: seq<Meta>, m: Meta)
    ensures CountCsp(metas + [m]) == CountCsp(metas) + if IsCsp(m) then 1 else 0
    decreases |metas|
  {
    if metas == [] {
      assert [] + [m] == [m] && [m][1..] == [];
    } else {
      assert (metas + [m])[1..] == metas[1..] + [m];
      CountCspAppend(metas[1..], m);
    }
  }

  lemma {:induction false} CountReferrerAppend(metas: seq<Meta>, m: Meta)
    ensures CountReferrer(metas + [m]) == CountReferrer(metas) + if IsReferrer(m) then 1 else 0
    decreases |metas|
  {
    if metas == [] {
      assert [] + [m] == [m] && [m][1..] == [];
    } else {
      assert (metas + [m])[1..] == metas[1..] + [m];
      CountReferrerAppend(metas[1..], m);
    }
  }

  /** A link with a `javascript:` or `data:` href ends up with href `#` and a
      click that does nothing; every other href is kept. A `target="_blank"`
      link with no or an empty `rel` gets `noopener noreferrer`; any other
      `rel` is kept. The target is never changed. */
  lemma HardenedLink(l: Link)
    ensures IsUnsafeHref(l.href) ==> Harden(l).href == Some("#") && Harden(l).clickBlocked
    ensures !IsUnsafeHref(l.href) ==> Harden(l).href == l.href && Harden(l).clickBlocked == l.clickBlocked
    ensures Harden(l).target == l.target
    ensures OpensNewContext(l) && LacksRel(l) ==> Harden(l).rel == Some(SafeRel)
    ensures !(OpensNewContext(l) && LacksRel(l)) ==> Harden(l).rel == l.rel
  {
  }

  /** After a run no anchor has an unsafe href, and every anchor that opens a
      new browsing context has a non-empty `rel`. */
  lemma NoUnsafeLinksAfter(p: Page)
    ensures forall i :: 0 <= i < |p.links| ==> !IsUnsafeHref(Secured(p).links[i].href)
    ensures forall i :: 0 <= i < |p.links| ==>
      OpensNewContext(Secured(p).links[i]) ==> !LacksRel(Secured(p).links[i])
  {
    forall i | 0 <= i < |p.links|
      ensures !IsUnsafeHref(Secured(p).links[i].href)
    {
      assert !StartsWith("#", "javascript:") && !StartsWith("#", "data:");
    }
  }

  /** After one run the head has a tag of each kind, so a second run adds
      nothing. */
  lemma AddMetasSettles(metas: seq<Meta>)
    ensures HasCsp(AddMetas(metas)) && HasReferrer(AddMetas(metas))
    ensures AddMetas(AddMetas(metas)) == AddMetas(metas)
  {
    var m1 := if HasCsp(metas) then metas else metas + [CspMeta];
    var m2 := AddMetas(metas);
    assert m1 <= m2;
    assert HasCsp(m1) by {
      if !HasCsp(metas) {
        assert IsCsp(m1[|metas|]);
      } else {
        var i :| 0 <= i < |metas| && IsCsp(metas[i]);
        assert m1[i] == metas[i];
      }
    }
    assert HasCsp(m2) by {
      var i :| 0 <= i < |m1| && IsCsp(m1[i]);
      assert m2[i] == m1[i];
    }
    assert HasReferrer(m2) by {
      if !HasReferrer(m1) {
        assert IsReferrer(m2[|m1|]);
      } else {
        var i :| 0 <= i < |m1| && IsReferrer(m1[i]);
        assert m2[i] == m1[i];
      }
    }
  }

  /** A second run changes nothing. */
  lemma ApplyIdempotent(p: Page)
    ensures Secured(Secured(p)) == Secured(p)
  {
    var q := Secured(p);
    assert !StartsWith("#", "javascript:") && !StartsWith("#", "data:");
    AddMetasSettles(p.metas);
    assert HardenLinks(q.links) == q.links;
  }

  /** However many times the step runs (at least once), the document has one
      CSP tag and one referrer tag if it had none of that kind, and exactly
      as many as before otherwise: the script never adds a second one. */
  lemma {:induction false} RepeatedRunsAddAtMostOne(p: Page, n: nat)
    requires n >= 1
    ensures ApplyTimes(p, n) == Secured(p)
    ensures CountCsp(ApplyTimes(p, n).metas) == if HasCsp(p.metas) then CountCsp(p.metas) else 1
    ensures CountReferrer(ApplyTimes(p, n).metas) == if HasReferrer(p.metas) then CountReferrer(p.metas) else 1
    decreases n
  {
    if n > 1 {
      ApplyIdempotent(p);
      SecuredFixpointStays(Secured(p), n - 1);
    }
    AddMetasCounts(p.metas);
  }

  lemma {:induction false} SecuredFixpointStays(q: Page, n: nat)
    requires Secured(q) == q
    ensures ApplyTimes(q, n) == q
    decreases n
  {
    if n > 0 {
      SecuredFixpointStays(q, n - 1);
    }
  }

  /** One run adds a tag of each kind exactly when none matched before. */
  lemma AddMetasCounts(metas: seq<Meta>)
    ensures CountCsp(AddMetas(metas)) == if HasCsp(metas) then CountCsp(metas) else 1
    ensures CountReferrer(AddMetas(metas)) == if HasReferrer(metas) then CountReferrer(metas) else 1
  {
    var m1 := if HasCsp(metas) then metas else metas + [CspMeta];
    if !HasCsp(metas) {
      CountCspAppend(metas, CspMeta);
      CountReferrerAppend(metas, CspMeta);
      assert HasReferrer(m1) ==> HasReferrer(metas) by {
        if HasReferrer(m1) {
          var i :| 0 <= i < |m1| && IsReferrer(m1[i]);
          assert i < |metas|;
          assert m1[i] == metas[i];
        }
      }
    }
    if !HasReferrer(m1) {
      CountCspAppend(m1, ReferrerMeta);
      CountReferrerAppend(m1, ReferrerMeta);
    }
  }

  /** The document's head and anchors, updated in place. */
  class Document {
    var metas: seq<Meta>
    const links: array<Link>

    function State(): Page
      reads this, links
    {
      Page(metas, links[..])
    }

    constructor (metas: seq<Meta>, links: seq<Link>)
      ensures State() == Page(metas, links) && fresh(this.links)
    {
      this.metas := metas;
      this.links := new Link[|links|](i requires 0 <= i < |links| => links[i]);
    }

    /** `applySecurityMeasures()`. */
    method ApplySecurityMeasures()
      modifies this, links
      ensures State() == Secured(old(State()))
    {
      if !HasCsp(metas) {
        metas := metas + [CspMeta];
      }
      for i := 0 to links.Length
        modifies links
        invariant forall k :: 0 <= k < i ==> links[k] == Disarm(old(links[k]))
        invariant forall k :: i <= k < links.Length ==> links[k] == old(links[k])
      {
        var href := links[i].href;
        if href.Some? && href.value != "" &&
           (StartsWith(href.value, "javascript:") || StartsWith(href.value, "data:")) {
          links[i] := links[i].(href := Some("#"), clickBlocked := true);
        }
      }
      for i := 0 to links.Length
        modifies links
        invariant forall k :: 0 <= k < i ==> links[k] == Harden(old(links[k]))
        invariant forall k :: i <= k < links.Length ==> links[k] == Disarm(old(links[k]))
      {
        if links[i].target == Some("_blank") {
          var rel := links[i].rel;
          if rel == None || rel == Some("") {
            links[i] := links[i].(rel := Some(SafeRel));
          }
        }
      }
      if !HasReferrer(metas) {
        metas := metas + [ReferrerMeta];
      }
    }
  }
}
