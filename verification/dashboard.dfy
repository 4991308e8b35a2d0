/**
 * The services dashboard: the set of selected label keywords, its toggle and
 * clear operations, the filter that decides which services are shown, and the
 * Running/Stopped badge of each row.
 */
module Dashboard {
  import opened Text
  import opened Tokens
  import opened Subsequence
  import opened ServiceList

  /** The label keywords currently selected as filters. */
  type Selection = set<string>

  /** Clicking a keyword selects it when unselected and unselects it when selected. */
  function ToggleLabel(selected: Selection, keyword: string): (r: Selection)
    ensures keyword in r <==> keyword !in selected
    ensures forall other :: other != keyword ==> (other in r <==> other in selected)
  {
    if keyword in selected then selected - {keyword} else selected + {keyword}
  }

  /** Toggling the same keyword twice restores the selection. */
  lemma ToggleTwice(selected: Selection, keyword: string)
    ensures ToggleLabel(ToggleLabel(selected, keyword), keyword) == selected
  {
  }

  /** "Clear all": nothing selected. */
  function ClearFilters(): (r: Selection)
    ensures |r| == 0
  {
    {}
  }

  /** The service's label contains some selected keyword, ignoring ASCII case. */
  predicate Matches(s: Service, selected: Selection) {
    exists keyword :: keyword in selected && Contains(Lower(s.name), Lower(keyword))
  }

  /** The services whose label matches, in their original order. */
  function Keep(services: seq<Service>, selected: Selection): (r: seq<Service>)
    ensures |r| <= |services|
    decreases |services|
  {
    if services == [] then []
    else if Matches(services[0], selected) then [services[0]] + Keep(services[1..], selected)
    else Keep(services[1..], selected)
  }

  /** The list shown: everything when nothing is selected, the matching services otherwise. */
  function FilteredServices(services: seq<Service>, selected: Selection): (r: seq<Service>)
    ensures |selected| == 0 ==> r == services
    ensures |r| <= |services|
  {
    if |selected| == 0 then services else Keep(services, selected)
  }

  /** A service is shown under a non-empty selection exactly when it is listed and matches. */
  lemma {:induction false} KeepMembers(services: seq<Service>, selected: Selection)
    ensures forall s :: s in Keep(services, selected) <==> s in services && Matches(s, selected)
    decreases |services|
  {
    if services != [] {
      KeepMembers(services[1..], selected);
      assert services == [services[0]] + services[1..];
    }
  }

  /** The filtered list is an order-preserving subsequence of the full list. */
  lemma {:induction false} KeepIsSubseq(services: seq<Service>, selected: Selection)
    ensures IsSubseq(Keep(services, selected), services)
    decreases |services|
  {
    if services != [] {
      KeepIsSubseq(services[1..], selected);
      var x := services[0];
      var rest := Keep(services[1..], selected);
      assert services == [x] + services[1..];
      if Matches(x, selected) {
        IsSubseqCons(x, rest, services[1..]);
      } else {
        IsSubseqSkip(x, rest, services[1..]);
      }
    }
  }

  /** Filtering is line by line: the result for two blocks is the two results in order. */
  lemma {:induction false} KeepAppend(a: seq<Service>, b: seq<Service>, selected: Selection)
    ensures Keep(a + b, selected) == Keep(a, selected) + Keep(b, selected)
    decreases |a|
  {
    if a == [] {
      assert a + b == b;
    } else {
      var ab := a + b;
      assert ab[0] == a[0];
      assert ab[1..] == a[1..] + b;
      KeepAppend(a[1..], b, selected);
      if Matches(a[0], selected) {
        calc {
          Keep(ab, selected);
          [a[0]] + Keep(a[1..] + b, selected);
          [a[0]] + (Keep(a[1..], selected) + Keep(b, selected));
          ([a[0]] + Keep(a[1..], selected)) + Keep(b, selected);
        }
      }
    }
  }

  /** Whatever one selection shows, a selection matching more services shows as well, in the same order. */
  lemma {:induction false} KeepMonotone(services: seq<Service>, small: Selection, large: Selection)
    requires forall s :: Matches(s, small) ==> Matches(s, large)
    ensures IsSubseq(Keep(services, small), Keep(services, large))
    decreases |services|
  {
    if services != [] {
      var x := services[0];
      KeepMonotone(services[1..], small, large);
      var a := Keep(services[1..], small);
      var b := Keep(services[1..], large);
      if Matches(x, small) {
        IsSubseqCons(x, a, b);
      } else if Matches(x, large) {
        IsSubseqSkip(x, a, b);
      }
    }
  }

  /** Selecting one more keyword on top of a non-empty selection never hides a service. */
  lemma AddKeywordMonotone(services: seq<Service>, selected: Selection, keyword: string)
    requires |selected| > 0
    ensures IsSubseq(FilteredServices(services, selected), FilteredServices(services, selected + {keyword}))
  {
    assert |selected + {keyword}| > 0 by {
      var k :| k in selected;
      assert k in selected + {keyword};
    }
    KeepMonotone(services, selected, selected + {keyword});
  }

  /** Matching is substring search of the lower-cased keyword in the lower-cased label. */
  lemma MatchesIffOccurs(s: Service, selected: Selection)
    ensures Matches(s, selected) <==>
            exists keyword :: keyword in selected && exists i :: OccursAt(Lower(s.name), Lower(keyword), i)
  {
    forall keyword | keyword in selected {
      ContainsIffOccurs(Lower(s.name), Lower(keyword));
    }
  }

  /** After "Clear all", the whole list is shown again. */
  lemma ClearShowsAll(services: seq<Service>)
    ensures FilteredServices(services, ClearFilters()) == services
  {
  }

  /** The badge shown in a row. */
  datatype Badge = Running | Stopped

  function BadgeOf(s: Service): (b: Badge)
    ensures b == Stopped <==> s.pid == NotRunning
  {
    if s.pid != NotRunning then Running else Stopped
  }

  /** For a parsed record the badge reads Stopped exactly when the pid column was a dash. */
  lemma BadgeOfParsedLine(line: string)
    requires ParseLine(line).Some?
    ensures BadgeOf(ParseLine(line).value) == Stopped <==> Words(line)[0] == "-"
  {
    ParseLineFields(line);
  }
}
