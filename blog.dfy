/** The blog page's logic (blog.js): the view, reading-time and newsletter
    trackers kept in local storage, the related-articles query, the mock
    view counts, the e-mail check, and the two predicates that decide
    whether an article is shown by the category buttons and by the search
    box. */
module Blog {
  import opened Js
  import opened Strings
  import Patterns

  // ---------------------------------------------------------------------
  // Counters kept in local storage

  /** `(m[key] || 0)`: the stored number, 0 when there is none. */
  function Stored(m: map<string, int>, key: string): int
  {
    if key in m then m[key] else 0
  }

  /** `m[key] = (m[key] || 0) + amount`: the counter of `key` grows by
      `amount`, starting from 0; every other counter is kept. */
  function Bump(m: map<string, int>, key: string, amount: int): (r: map<string, int>)
    ensures r.Keys == m.Keys + {key}
    ensures Stored(r, key) == Stored(m, key) + amount
    ensures forall k | k in m && k != key :: r[k] == m[k]
  {
    m[key := Stored(m, key) + amount]
  }

  /** A newsletter sign-up record: the address and the ISO time stamp. */
  datatype Signup = Signup(email: string, date: string)

  /** The three local-storage entries `articleViews`, `readingTimes` and
      `blogNewsletterSignups`, as the decoded values they hold (an absent
      entry reads as `{}` or `[]`). */
  class BlogStore {
    var articleViews: map<string, int>
    var readingTimes: map<string, int>
    var signups: seq<Signup>

    /** Nothing stored yet. */
    constructor ()
      ensures articleViews == map[] && readingTimes == map[] && signups == []
    {
      articleViews, readingTimes, signups := map[], map[], [];
    }

    /** `trackArticleView(id)`: one more view of `id`. */
    method TrackArticleView(articleId: string)
      modifies this
      ensures articleViews == Bump(old(articleViews), articleId, 1)
      ensures readingTimes == old(readingTimes) && signups == old(signups)
    {
      var views := articleViews;
      views := views[articleId := Stored(views, articleId) + 1];
      articleViews := views;
    }

    /** `trackReadingTime(id, seconds)`: `seconds` more reading time of `id`. */
    method TrackReadingTime(articleId: string, seconds: int)
      modifies this
      ensures readingTimes == Bump(old(readingTimes), articleId, seconds)
      ensures articleViews == old(articleViews) && signups == old(signups)
    {
      var times := readingTimes;
      times := times[articleId := Stored(times, articleId) + seconds];
      readingTimes := times;
    }

    /** `trackNewsletterSignup(email)` at the time `now` (the clock is a
        parameter): one record appended, the earlier ones kept in order. */
    method TrackNewsletterSignup(email: string, now: string)
      modifies this
      ensures signups == old(signups) + [Signup(email, now)]
      ensures articleViews == old(articleViews) && readingTimes == old(readingTimes)
    {
      var log := signups;
      log := log + [Signup(email, now)];
      signups := log;
    }

    /** A reader opens the articles `ids` one after the other. */
    method ViewAll(ids: seq<string>)
      modifies this
      ensures articleViews == ReplayViews(old(articleViews), ids)
      ensures readingTimes == old(readingTimes) && signups == old(signups)
    {
      var n := 0;
      while n < |ids|
        invariant 0 <= n <= |ids|
        invariant articleViews == ReplayViews(old(articleViews), ids[..n])
        invariant readingTimes == old(readingTimes) && signups == old(signups)
      {
        TrackArticleView(ids[n]);
        ReplayViewsSnoc(old(articleViews), ids[..n], ids[n]);
        assert ids[..n + 1] == ids[..n] + [ids[n]];
        n := n + 1;
      }
      assert ids[..n] == ids;
    }
  }

  /** The view counters after the views `ids`, in order. */
  function ReplayViews(m: map<string, int>, ids: seq<string>): map<string, int>
    decreases |ids|
  {
    if ids == [] then m else ReplayViews(Bump(m, ids[0], 1), ids[1..])
  }

  /** After any sequence of views each article's counter has grown by the
      number of its views. */
  lemma {:induction false} ReplayViewsCount(m: map<string, int>, ids: seq<string>, key: string)
    ensures Stored(ReplayViews(m, ids), key) == Stored(m, key) + Occurrences(ids, key)
    decreases |ids|
  {
    if ids != [] {
      ReplayViewsCount(Bump(m, ids[0], 1), ids[1..], key);
      if ids[0] != key {
        assert Stored(Bump(m, ids[0], 1), key) == Stored(m, key);
      }
    }
  }

  lemma {:induction false} ReplayViewsSnoc(m: map<string, int>, ids: seq<string>, id: string)
    ensures ReplayViews(m, ids + [id]) == Bump(ReplayViews(m, ids), id, 1)
    decreases |ids|
  {
    if ids == [] {
      assert [] + [id] == [id];
    } else {
      assert (ids + [id])[1..] == ids[1..] + [id];
      ReplayViewsSnoc(Bump(m, ids[0], 1), ids[1..], id);
    }
  }

  /** Reading times add up: tracking `a` seconds and then `b` seconds is
      tracking `a + b` seconds. */
  lemma ReadingTimesAdd(m: map<string, int>, key: string, a: int, b: int)
    ensures Bump(Bump(m, key, a), key, b) == Bump(m, key, a + b)
  {
  }

  // ---------------------------------------------------------------------
  // getRelatedArticles

  datatype Article = Article(id: int, title: string, category: string)

  /** The built-in article table. */
  const Articles: seq<Article> := [
    Article(1, "HTML/CSS Guide", "frontend"),
    Article(2, "React Hooks", "frontend"),
    Article(3, "Node.js API", "backend"),
    Article(4, "Tech Interviews", "career"),
    Article(5, "CSS Grid Hausa", "frontend"),
    Article(6, "Python Guide", "backend"),
    Article(7, "Freelancing", "career")]

  /** `articles.find(a => a.id == id)`: the first article with the id. */
  function Find(articles: seq<Article>, id: int): (r: Option<Article>)
    ensures r.None? <==> forall i | 0 <= i < |articles| :: articles[i].id != id
    ensures r.Some? ==> r.value in articles && r.value.id == id
    ensures r.Some? ==> exists i | 0 <= i < |articles| ::
      articles[i] == r.value && forall j | 0 <= j < i :: articles[j].id != id
  {
    if articles == [] then None
    else if articles[0].id == id then Some(articles[0])
    else
      var r := Find(articles[1..], id);
      assert r.Some? ==> exists i | 0 <= i < |articles| ::
        articles[i] == r.value && forall j | 0 <= j < i :: articles[j].id != id
      by {
        if r.Some? {
          var k :| 0 <= k < |articles[1..]| && articles[1..][k] == r.value
            && forall j | 0 <= j < k :: articles[1..][j].id != id;
          assert articles[k + 1] == r.value && forall j | 0 <= j < k + 1 :: articles[j].id != id;
        }
      }
      r
  }

  /** `articles.filter(a => a.id != id && a.category === category)`. */
  function SameCategory(articles: seq<Article>, id: int, category: string): (r: seq<Article>)
    ensures |r| <= |articles|
    ensures forall i | 0 <= i < |r| :: r[i] in articles && r[i].id != id && r[i].category == category
    ensures forall i | 0 <= i < |articles| && articles[i].id != id && articles[i].category == category ::
      articles[i] in r
  {
    if articles == [] then []
    else
      (if articles[0].id != id && articles[0].category == category then [articles[0]] else [])
        + SameCategory(articles[1..], id, category)
  }

  /** The filter works article by article, so it keeps table order: the
      candidates of a concatenation are those of each part, in turn. */
  lemma {:induction false} SameCategoryConcat(a: seq<Article>, b: seq<Article>, id: int, category: string)
    ensures SameCategory(a + b, id, category) == SameCategory(a, id, category) + SameCategory(b, id, category)
  {
    if a == [] {
      assert a + b == b;
    } else {
      assert (a + b)[1..] == a[1..] + b;
      SameCategoryConcat(a[1..], b, id, category);
    }
  }

  /** `getRelatedArticles` over a given table: nothing for an unknown id;
      otherwise the first three other articles of the same category, in
      table order. */
  function RelatedIn(articles: seq<Article>, currentId: int): (r: seq<Article>)
    ensures Find(articles, currentId).None? ==> r == []
    ensures |r| <= 3
    ensures forall i | 0 <= i < |r| ::
      r[i] in articles && r[i].id != currentId && r[i].category == Find(articles, currentId).value.category
    ensures Find(articles, currentId).Some? ==>
      var others := SameCategory(articles, currentId, Find(articles, currentId).value.category);
      |r| == if |others| <= 3 then |others| else 3
  {
    match Find(articles, currentId)
    case None => []
    case Some(current) =>
      var others := SameCategory(articles, currentId, current.category);
      if |others| <= 3 then others else others[..3]
  }

  /** With at most three candidates, all of them are returned. */
  lemma RelatedComplete(articles: seq<Article>, currentId: int, a: Article)
    requires Find(articles, currentId).Some?
    requires |SameCategory(articles, currentId, Find(articles, currentId).value.category)| <= 3
    requires a in articles && a.id != currentId && a.category == Find(articles, currentId).value.category
    ensures a in RelatedIn(articles, currentId)
  {
  }

  /** The results come in table order: they are the first ones of the
      same-category list. */
  lemma RelatedIsPrefix(articles: seq<Article>, currentId: int)
    requires Find(articles, currentId).Some?
    ensures var others := SameCategory(articles, currentId, Find(articles, currentId).value.category);
      RelatedIn(articles, currentId) <= others
  {
  }

  /** `getRelatedArticles(id)` on the built-in table: since no category
      has more than three other articles, every one of them is returned. */
  function GetRelatedArticles(currentId: int): (r: seq<Article>)
    ensures |r| <= 3
    ensures (currentId < 1 || currentId > 7) ==> r == []
    ensures 1 <= currentId <= 7 ==> forall i | 0 <= i < |r| ::
      r[i] in Articles && r[i].id != currentId && r[i].category == Articles[currentId - 1].category
    ensures 1 <= currentId <= 7 ==>
      forall a | a in Articles && a.id != currentId && a.category == Articles[currentId - 1].category :: a in r
  {
    assert forall i | 0 <= i < |Articles| :: Articles[i].id == i + 1;
    if 1 <= currentId <= 7 then
      FindInTable(currentId);
      FewCandidates(currentId);
      RelatedIn(Articles, currentId)
    else RelatedIn(Articles, currentId)
  }

  /** No category of the table has more than three other articles, so the
      `slice(0, 3)` never drops one. */
  lemma FewCandidates(id: int)
    requires 1 <= id <= 7
    ensures |SameCategory(Articles, id, Articles[id - 1].category)| <= 3
  {
    var c := Articles[id - 1].category;
    var n6 := CandidatesStep(Articles[6..], id, c);
    var n5 := CandidatesStep(Articles[5..], id, c);
    var n4 := CandidatesStep(Articles[4..], id, c);
    var n3 := CandidatesStep(Articles[3..], id, c);
    var n2 := CandidatesStep(Articles[2..], id, c);
    var n1 := CandidatesStep(Articles[1..], id, c);
    var n0 := CandidatesStep(Articles, id, c);
    assert Articles[6..][1..] == [];
    assert Articles[5..][1..] == Articles[6..] && Articles[4..][1..] == Articles[5..];
    assert Articles[3..][1..] == Articles[4..] && Articles[2..][1..] == Articles[3..];
    assert Articles[1..][1..] == Articles[2..];
  }

  /** The first article adds at most one candidate, and only when it is of
      the category. */
  lemma CandidatesStep(articles: seq<Article>, id: int, c: string) returns (n: nat)
    requires articles != []
    ensures n == (if articles[0].category == c then 1 else 0)
    ensures |SameCategory(articles, id, c)| <= n + |SameCategory(articles[1..], id, c)|
  {
    n := if articles[0].category == c then 1 else 0;
  }

  /** Article `id` sits at index `id - 1` of the table. */
  lemma FindInTable(id: int)
    requires 1 <= id <= 7
    ensures Find(Articles, id) == Some(Articles[id - 1])
  {
    assert forall i | 0 <= i < |Articles| :: Articles[i].id == i + 1;
    var found := Find(Articles, id);
    assert found.Some? by {
      assert Articles[id - 1].id == id;
    }
    var j :| 0 <= j < |Articles| && Articles[j] == found.value;
    assert j == id - 1;
  }

  // ---------------------------------------------------------------------
  // getArticleViews

  /** The mock view counts, by article id as a property name. */
  const ViewCounts: map<string, string> :=
    map["1" := "1.2k", "2" := "850", "3" := "720", "4" := "980", "5" := "650", "6" := "580", "7" := "890"]

  /** `getArticleViews(id)`: the table's count, or `'500'` for an id not
      in it (every count in the table is truthy, so the fallback applies to
      missing ids only). */
  function GetArticleViews(id: string): (r: string)
    ensures id in ViewCounts ==> r == ViewCounts[id]
    ensures id !in ViewCounts ==> r == "500"
    ensures r != ""
  {
    if id in ViewCounts && ViewCounts[id] != "" then ViewCounts[id] else "500"
  }

  // ---------------------------------------------------------------------
  // validateEmail

  /** `validateEmail`: the blog's e-mail regular expression, the same one
      the dashboard uses. An accepted address holds exactly one `@`. */
  function ValidateEmail(email: string): (r: bool)
    ensures r <==> Patterns.EmailPattern(email)
    ensures r ==> Occurrences(email, '@') == 1
    ensures r ==> forall k | 0 <= k < |email| :: !IsWhitespace(email[k])
  {
    Patterns.MatchesEmailCorrect(email);
    if Patterns.MatchesEmail(email) then Patterns.EmailPatternOneAt(email); true else false
  }

  // ---------------------------------------------------------------------
  // Category buttons and search box

  /** The category buttons: with the `all` button every article is shown;
      otherwise one whose comma-separated `data-categories` lists the
      button's category exactly (no trimming). */
  predicate ShownByCategory(selected: string, dataCategories: string)
    ensures selected == "all" ==> ShownByCategory(selected, dataCategories)
    ensures ShownByCategory(selected, dataCategories) && selected != "all" ==> ',' !in selected
  {
    selected == "all" || selected in Split(dataCategories, ',')
  }

  /** An article with a single category is shown by the `all` button and by
      that category's button, and by no other. */
  lemma SingleCategoryShown(selected: string, category: string)
    requires ',' !in category
    ensures ShownByCategory(selected, category) <==> selected == "all" || selected == category
  {
    SplitNoSeparator(category, ',');
  }

  /** For an article tagged with the categories `tags` (none holding a
      comma), the button of a category shows it exactly when the category is
      one of its tags. */
  lemma ShownByCategoryTags(selected: string, tags: seq<string>)
    requires |tags| >= 1
    requires forall i | 0 <= i < |tags| :: ',' !in tags[i]
    ensures ShownByCategory(selected, Join(tags, ',')) <==> selected == "all" || selected in tags
  {
    SplitJoin(tags, ',');
  }

  /** A space after a comma is part of the next tag: `"a, b"` does not
      list `b`. */
  lemma CategoryTagsAreNotTrimmed(first: string, second: string)
    requires ',' !in first && ',' !in second && second != first
    ensures !ShownByCategory(second, first + ", " + second) || second == "all"
  {
    var tagged := first + ", " + second;
    assert tagged == first + [','] + (" " + second);
    SplitAfterPiece(first, " " + second, ',');
    SplitNoSeparator(" " + second, ',');
    assert Split(tagged, ',') == [first, " " + second];
    assert |" " + second| != |second|;
  }

  /** The search box: an article is shown when its lower-cased title or
      first paragraph holds the lower-cased term. */
  predicate ShownBySearch(term: string, title: string, content: string)
    ensures ShownBySearch(term, title, content) ==> |term| <= |title| || |term| <= |content|
  {
    Contains(Lower(title), Lower(term)) || Contains(Lower(content), Lower(term))
  }

  /** An empty search shows every article. */
  lemma EmptySearchShowsAll(title: string, content: string)
    ensures ShownBySearch("", title, content)
  {
    ContainsEmpty(Lower(title));
  }

  /** The search ignores the case of the term. */
  lemma SearchIgnoresCase(term: string, title: string, content: string)
    ensures ShownBySearch(Lower(term), title, content) == ShownBySearch(term, title, content)
  {
    LowerIdempotent(term);
  }

  /** A longer term shows fewer articles: whatever a term shows, every
      piece of the term shows too. */
  lemma SearchNarrows(term: string, piece: string, title: string, content: string)
    requires Contains(term, piece)
    requires ShownBySearch(term, title, content)
    ensures ShownBySearch(piece, title, content)
  {
    LowerKeepsContains(term, piece);
    if Contains(Lower(title), Lower(term)) {
      ContainsTransitive(Lower(title), Lower(term), Lower(piece));
    } else {
      ContainsTransitive(Lower(content), Lower(term), Lower(piece));
    }
  }
}
