/**
  Labels become provider tags: every label is reduced to letters, digits and single dashes, and the
  list is sorted and free of duplicates, so that it depends on the labels alone and a second
  synchronisation finds nothing to write.
 */
module Tags {
  import opened Prelude

  predicate Alnum(c: char) {
    'a' <= c <= 'z' || 'A' <= c <= 'Z' || '0' <= c <= '9'
  }

  // ---------- one tag ----------

  predicate IsWord(w: string) {
    w != "" && forall c :: c in w ==> Alnum(c)
  }

  /** The maximal runs of letters and digits, in order. */
  function Words(s: string): (ws: seq<string>)
    ensures forall w :: w in ws ==> IsWord(w)
    ensures ws == [] ==> s == "" || !Alnum(s[|s| - 1])
    decreases |s|
  {
    if s == "" then []
    else
      var ws, c := Words(s[..|s| - 1]), s[|s| - 1];
      if !Alnum(c) then ws
      else if |s| > 1 && Alnum(s[|s| - 2]) then
        var last := ws[|ws| - 1];
        assert last in ws && IsWord(last + [c]);
        ws[..|ws| - 1] + [last + [c]]
      else ws + [[c]]
  }

  function JoinDashed(ws: seq<string>): string {
    if ws == [] then ""
    else if |ws| == 1 then ws[0]
    else JoinDashed(ws[..|ws| - 1]) + "-" + ws[|ws| - 1]
  }

  /** The words of a label, joined by single dashes. */
  function Sanitized(s: string): string {
    JoinDashed(Words(s))
  }

  lemma JoinedNonEmpty(ws: seq<string>)
    requires forall w :: w in ws ==> w != ""
    ensures JoinDashed(ws) == "" <==> ws == []
  {
    if |ws| == 1 {
      assert ws[0] in ws;
    }
  }

  lemma JoinGrows(ws: seq<string>, w: string, c: char)
    ensures JoinDashed(ws + [w + [c]]) == JoinDashed(ws + [w]) + [c]
    ensures ws != [] ==> JoinDashed(ws + [w]) == JoinDashed(ws) + "-" + w
  {
    assert (ws + [w + [c]])[..|ws|] == ws && (ws + [w])[..|ws|] == ws;
  }

  method SanitizeTag(s: string) returns (b: string)
    ensures b == Sanitized(s)
  {
    b := "";
    var pendingDash := false;
    for i := 0 to |s|
      invariant b == Sanitized(s[..i])
      invariant pendingDash <==> i > 0 && !Alnum(s[i - 1])
    {
      var prefix, ws := s[..i + 1], Words(s[..i]);
      assert prefix[..i] == s[..i];
      JoinedNonEmpty(ws);
      if Alnum(s[i]) {
        if pendingDash && |b| > 0 {
          b := b + "-";
        }
        b := b + [s[i]];
        pendingDash := false;
        if i > 0 && Alnum(s[i - 1]) {
          assert prefix[i - 1] == s[..i][i - 1];
          JoinGrows(ws[..|ws| - 1], ws[|ws| - 1], s[i]);
          assert ws == ws[..|ws| - 1] + [ws[|ws| - 1]];
        } else {
          JoinGrows(ws, [s[i]], s[i]);
        }
      } else {
        pendingDash := true;
      }
    }
    assert s[..|s|] == s;
  }

  function Letters(s: string): string {
    Filter(s, (c: char) => Alnum(c))
  }

  /** One more letter joins the last word; after a gap, it starts a new one. */
  lemma WordsOfNextLetter(s: string, c: char)
    requires Alnum(c)
    ensures s != "" && Alnum(s[|s| - 1]) ==>
              Words(s) != [] && Words(s + [c]) == Words(s)[..|Words(s)| - 1] + [Words(s)[|Words(s)| - 1] + [c]]
    ensures s == "" || !Alnum(s[|s| - 1]) ==> Words(s + [c]) == Words(s) + [[c]]
  {
    var t := s + [c];
    assert t[..|t| - 1] == s && t[|t| - 1] == c;
    if s != "" {
      assert t[|t| - 2] == s[|s| - 1];
    }
  }

  lemma SplitLast(s: string, w: string)
    requires w != ""
    ensures s + w == s + w[..|w| - 1] + [w[|w| - 1]] && w[|w| - 1] in w
    ensures |w| > 1 ==> (s + w[..|w| - 1])[|s| + |w| - 2] == w[|w| - 2] && w[|w| - 2] in w
    ensures w == w[..|w| - 1] + [w[|w| - 1]]
  {
  }

  lemma {:induction false} WordsOfLonger(s: string, w: string)
    requires IsWord(w) && (s == "" || !Alnum(s[|s| - 1]))
    ensures Words(s + w) == Words(s) + [w]
    decreases |w|
  {
    hide Words;
    var front, c := w[..|w| - 1], w[|w| - 1];
    SplitLast(s, w);
    WordsOfNextLetter(s + front, c);
    if front == "" {
      assert s + front == s && w == [c];
    } else {
      assert forall i :: 0 <= i < |front| ==> front[i] == w[i] && w[i] in w;
      WordsOfLonger(s, front);
    }
  }

  /** Words joined by dashes fall apart into the same words. */
  lemma {:induction false} WordsOfJoined(ws: seq<string>)
    requires forall w :: w in ws ==> IsWord(w)
    ensures Words(JoinDashed(ws)) == ws
  {
    if ws != [] {
      var front, last := ws[..|ws| - 1], ws[|ws| - 1];
      assert last in ws && ws == front + [last] && (forall w :: w in front ==> w in ws);
      if front == [] {
        WordsOfLonger("", last);
        assert "" + last == last;
      } else {
        WordsOfJoined(front);
        DashEndsWord(JoinDashed(front));
        WordsOfLonger(JoinDashed(front) + "-", last);
      }
    }
  }

  lemma DashEndsWord(s: string)
    ensures Words(s + "-") == Words(s)
  {
    assert (s + "-")[..|s|] == s;
  }

  lemma SanitizingIsIdempotent(s: string)
    ensures Sanitized(Sanitized(s)) == Sanitized(s)
  {
    WordsOfJoined(Words(s));
  }

  /** The provider accepts a tag of letters, digits and dashes. */
  lemma {:induction false} JoinedAlphabet(ws: seq<string>)
    requires forall w :: w in ws ==> IsWord(w)
    ensures forall c :: c in JoinDashed(ws) ==> Alnum(c) || c == '-'
    ensures ws != [] ==> JoinDashed(ws) != "" && Alnum(JoinDashed(ws)[0]) && Alnum(JoinDashed(ws)[|JoinDashed(ws)| - 1])
    ensures forall i :: 0 <= i < |JoinDashed(ws)| - 1 ==> !(JoinDashed(ws)[i] == '-' && JoinDashed(ws)[i + 1] == '-')
  {
    if ws != [] {
      var last := ws[|ws| - 1];
      assert last in ws && last[0] in last && last[|last| - 1] in last;
      if |ws| == 1 {
        assert forall i :: 0 <= i < |last| ==> last[i] in last;
      } else {
        var front := ws[..|ws| - 1];
        assert forall w :: w in front ==> w in ws;
        JoinedAlphabet(front);
        var j := JoinDashed(front);
        assert JoinDashed(ws) == j + "-" + last;
        forall i | 0 <= i < |j| + |last|
          ensures !((j + "-" + last)[i] == '-' && (j + "-" + last)[i + 1] == '-')
        {
          if i > |j| {
            assert (j + "-" + last)[i] == last[i - |j| - 1] && last[i - |j| - 1] in last;
          }
        }
      }
    }
  }

  lemma LettersAppend(a: string, b: string)
    ensures Letters(a + b) == Letters(a) + Letters(b)
  {
    FilterAppend(a, b, (c: char) => Alnum(c));
  }

  /** What one more character adds to the sanitised text. */
  lemma SanitizedGrows(s: string, c: char)
    ensures Letters(Sanitized(s + [c])) == Letters(Sanitized(s)) + Letters([c])
  {
    var ws := Words(s);
    assert (s + [c])[..|s|] == s;
    if Alnum(c) {
      if s != "" && Alnum(s[|s| - 1]) {
        JoinGrows(ws[..|ws| - 1], ws[|ws| - 1], c);
        assert ws == ws[..|ws| - 1] + [ws[|ws| - 1]];
        LettersAppend(JoinDashed(ws), [c]);
      } else if ws != [] {
        JoinGrows(ws, [c], c);
        LettersAppend(JoinDashed(ws) + "-", [c]);
        LettersAppend(JoinDashed(ws), "-");
      }
    }
  }

  lemma {:induction false} LettersOfWords(s: string)
    ensures Letters(Sanitized(s)) == Letters(s)
    decreases |s|
  {
    if s != "" {
      var front, c := s[..|s| - 1], s[|s| - 1];
      assert s == front + [c];
      LettersOfWords(front);
      LettersAppend(front, [c]);
      SanitizedGrows(front, c);
    }
  }

  /**
    What a sanitised label is: nothing but letters, digits and dashes, no dash at either end and no
    two in a row, and exactly the letters and digits of the label, in order.
   */
  lemma SanitizedShape(s: string)
    ensures var t := Sanitized(s);
            && (forall c :: c in t ==> Alnum(c) || c == '-')
            && (t != "" ==> Alnum(t[0]) && Alnum(t[|t| - 1]))
            && (forall i :: 0 <= i < |t| - 1 ==> !(t[i] == '-' && t[i + 1] == '-'))
            && Letters(t) == Letters(s)
  {
    JoinedNonEmpty(Words(s));
    JoinedAlphabet(Words(s));
    LettersOfWords(s);
  }

  // ---------- the list of tags ----------

  predicate Less(a: string, b: string) {
    b != "" && (a == "" || a[0] < b[0] || (a[0] == b[0] && Less(a[1..], b[1..])))
  }

  lemma {:induction false} LessIsTotal(a: string, b: string)
    ensures Less(a, b) || Less(b, a) || a == b
    ensures !(Less(a, b) && Less(b, a))
    ensures !Less(a, a)
  {
    if a != "" {
      LessIsTotal(a[1..], if b == "" then "" else b[1..]);
      if b != "" && a[0] == b[0] && a[1..] == b[1..] {
        assert a == [a[0]] + a[1..] && b == [b[0]] + b[1..];
      }
    }
  }

  lemma {:induction false} LessIsTransitive(a: string, b: string, c: string)
    requires Less(a, b) && Less(b, c)
    ensures Less(a, c)
  {
    if a != "" && a[0] == b[0] && b[0] == c[0] {
      LessIsTransitive(a[1..], b[1..], c[1..]);
    }
  }

  ghost predicate Sorted(s: seq<string>) {
    forall i, j :: 0 <= i < j < |s| ==> !Less(s[j], s[i])
  }

  ghost predicate StrictlySorted(s: seq<string>) {
    forall i, j :: 0 <= i < j < |s| ==> Less(s[i], s[j])
  }

  function Insert(x: string, s: seq<string>): (r: seq<string>)
    ensures multiset(r) == multiset(s) + multiset{x}
    ensures Sorted(s) ==> Sorted(r)
  {
    if s == [] then [x]
    else if !Less(s[0], x) then
      assert Sorted(s) ==> Sorted([x] + s) by { InsertInFront(x, s); }
      [x] + s
    else
      var r := [s[0]] + Insert(x, s[1..]);
      assert s == [s[0]] + s[1..];
      assert Sorted(s) ==> Sorted(r) by { InsertBehind(x, s, Insert(x, s[1..])); }
      r
  }

  lemma InsertInFront(x: string, s: seq<string>)
    requires s != [] && !Less(s[0], x)
    ensures Sorted(s) ==> Sorted([x] + s)
  {
    if Sorted(s) {
      forall j | 0 <= j < |s|
        ensures !Less(s[j], x)
      {
        LessIsTotal(s[0], s[j]);
        if Less(s[j], x) && j > 0 {
          if Less(s[0], s[j]) {
            LessIsTransitive(s[0], s[j], x);
          }
        }
      }
    }
  }

  lemma InsertBehind(x: string, s: seq<string>, tail: seq<string>)
    requires s != [] && Less(s[0], x) && multiset(tail) == multiset(s[1..]) + multiset{x}
    requires Sorted(s[1..]) ==> Sorted(tail)
    ensures Sorted(s) ==> Sorted([s[0]] + tail)
  {
    if Sorted(s) {
      assert Sorted(s[1..]) by {
        assert forall i :: 0 <= i < |s| - 1 ==> s[1..][i] == s[i + 1];
      }
      forall j | 0 <= j < |tail|
        ensures !Less(tail[j], s[0])
      {
        assert tail[j] in multiset(tail);
        LessIsTotal(s[0], x);
        if tail[j] != x {
          assert tail[j] in s[1..];
        }
      }
    }
  }

  function Sort(s: seq<string>): (r: seq<string>)
    ensures multiset(r) == multiset(s) && Sorted(r)
  {
    if s == [] then []
    else
      assert s == [s[0]] + s[1..];
      Insert(s[0], Sort(s[1..]))
  }

  /** Drops repeated neighbours. */
  function Compact(s: seq<string>): (r: seq<string>)
    ensures forall x :: x in r <==> x in s
  {
    if |s| < 2 then s
    else
      var r := Compact(s[1..]);
      assert s == [s[0]] + s[1..];
      if s[0] == s[1] then r else [s[0]] + r
  }

  lemma {:induction false} CompactSorted(s: seq<string>)
    requires Sorted(s)
    ensures StrictlySorted(Compact(s))
  {
    if |s| >= 2 {
      assert Sorted(s[1..]) by {
        assert forall i :: 0 <= i < |s| - 1 ==> s[1..][i] == s[i + 1];
      }
      CompactSorted(s[1..]);
      var r := Compact(s[1..]);
      if s[0] != s[1] {
        forall j | 0 <= j < |r|
          ensures Less(s[0], r[j])
        {
          assert r[j] in s[1..];
          var k :| 1 <= k < |s| && s[k] == r[j];
          LessIsTotal(s[0], s[1]);
          LessIsTotal(s[1], s[k]);
          assert !Less(s[k], s[1]) || k == 1;
          if s[k] != s[1] {
            LessIsTransitive(s[0], s[1], s[k]);
          }
        }
      }
    }
  }

  /** What the tags of a set of labels are, as a set. */
  ghost function TagSet(labels: map<string, string>): set<string> {
    (set k | k in labels :: Sanitized(k + "-" + labels[k])) - {""}
  }

  /** The one list of tags that belongs to a set of labels. */
  ghost predicate AreTagsOf(tags: seq<string>, labels: map<string, string>) {
    StrictlySorted(tags) && (forall t :: t in tags <==> t in TagSet(labels))
  }

  ghost function Listed(s: set<string>): (r: seq<string>)
    ensures forall t :: t in r <==> t in s
  {
    if s == {} then []
    else
      var t :| t in s;
      [t] + Listed(s - {t})
  }

  ghost function TagsOf(labels: map<string, string>): (tags: seq<string>)
    ensures AreTagsOf(tags, labels)
  {
    var unsorted := Listed(TagSet(labels));
    var sorted := Sort(unsorted);
    CompactSorted(sorted);
    assert forall t :: t in sorted <==> t in multiset(sorted);
    assert forall t :: t in unsorted <==> t in multiset(unsorted);
    Compact(sorted)
  }

  /** The list depends on the labels alone, whatever order the map was walked in. */
  lemma {:induction false} TagsAreUnique(a: seq<string>, b: seq<string>)
    requires StrictlySorted(a) && StrictlySorted(b) && forall t :: t in a <==> t in b
    ensures a == b
  {
    assert b != [] ==> b[0] in a;
    assert a != [] ==> a[0] in b;
    if a != [] {
      SmallestFirst(a, b);
      assert a == [a[0]] + a[1..] && b == [b[0]] + b[1..];
      forall t
        ensures t in a[1..] <==> t in b[1..]
      {
        TailWithoutHead(a, t);
        TailWithoutHead(b, t);
      }
      TagsAreUnique(a[1..], b[1..]);
    }
  }

  lemma SmallestFirst(a: seq<string>, b: seq<string>)
    requires StrictlySorted(a) && StrictlySorted(b) && a != [] && b != [] && a[0] in b && b[0] in a
    ensures a[0] == b[0]
  {
    LessIsTotal(a[0], b[0]);
  }

  lemma TailWithoutHead(s: seq<string>, t: string)
    requires StrictlySorted(s) && s != []
    ensures t in s[1..] <==> t in s && t != s[0]
    ensures StrictlySorted(s[1..])
  {
    if t in s && t != s[0] {
      var i :| 0 <= i < |s| && s[i] == t;
      assert s[1..][i - 1] == t;
    }
    if t in s[1..] {
      var i :| 0 <= i < |s| - 1 && s[1..][i] == t;
      assert Less(s[0], s[i + 1]);
      LessIsTotal(t, t);
    }
  }

  /** The keys are taken from the map in no particular order. */
  method ArubaTags(labels: map<string, string>) returns (tags: seq<string>)
    ensures AreTagsOf(tags, labels)
  {
    if |labels| == 0 {
      return [];
    }
    tags := [];
    var todo := labels.Keys;
    while todo != {}
      invariant todo <= labels.Keys
      invariant forall t :: t in tags <==>
                  exists k :: k in labels.Keys - todo && t == Sanitized(k + "-" + labels[k]) && t != ""
      decreases |todo|
    {
      var key :| key in todo;
      var tag := SanitizeTag(key + "-" + labels[key]);
      ghost var before, done := tags, labels.Keys - todo;
      if tag != "" {
        tags := tags + [tag];
      }
      todo := todo - {key};
      assert labels.Keys - todo == done + {key};
      forall t
        ensures t in tags <==> exists k :: k in labels.Keys - todo && t == Sanitized(k + "-" + labels[k]) && t != ""
      {
        assert t in tags <==> t in before || (t == tag && tag != "");
      }
    }
    assert labels.Keys - todo == labels.Keys;
    ghost var unsorted := tags;
    assert forall t :: t in TagSet(labels) <==> t in tags;
    if |tags| == 0 {
      return [];
    }
    tags := Sort(tags);
    CompactSorted(tags);
    forall t
      ensures t in Compact(tags) <==> t in TagSet(labels)
    {
      assert t in tags <==> t in multiset(tags);
      assert t in unsorted <==> t in multiset(unsorted);
    }
    tags := Compact(tags);
  }

  // ---------- synchronising ----------

  /** The live object at the provider: its tags if it exists, and how often it was written. */
  class Live {
    var tags: Option<seq<string>>
    var writes: nat

    constructor (tags: Option<seq<string>>)
      ensures this.tags == tags && writes == 0
    {
      this.tags, writes := tags, 0;
    }

    method SyncTags(desired: seq<string>) returns (missing: bool)
      modifies this
      ensures missing <==> old(tags).None?
      ensures missing ==> tags == old(tags) && writes == old(writes)
      ensures !missing ==> tags == Some(desired)
                           && writes == old(writes) + if old(tags) == Some(desired) then 0 else 1
    {
      if tags.None? {
        return true;
      }
      if tags.value == desired {
        return false;
      }
      tags := Some(desired);
      writes := writes + 1;
      return false;
    }

    /** A pass over an object that already has the tags of these labels writes nothing. */
    method Update(labels: map<string, string>) returns (missing: bool)
      modifies this
      ensures missing <==> old(tags).None?
      ensures !missing ==> tags.Some? && AreTagsOf(tags.value, labels)
      ensures writes == old(writes) <==> (old(tags).None? || AreTagsOf(old(tags).value, labels))
      ensures writes <= old(writes) + 1
    {
      var desired := ArubaTags(labels);
      if tags.Some? && AreTagsOf(tags.value, labels) {
        TagsAreUnique(tags.value, desired);
      }
      missing := SyncTags(desired);
    }
  }
}
