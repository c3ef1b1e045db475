/**
 The beneficiary portal's list logic: the course lists split by the
 enrolled ids, the achievements a level unlocks, the job buttons, the
 forum's post list and the tab on show. Every request's outcome is a
 parameter.
 */
module BeneficiaryPortal {
  import opened Wrappers
  import Seqs

  /** `user?.token` is truthy. */
  predicate HasToken(token: Option<string>) {
    token.Some? && token.value != ""
  }

  datatype Course = Course(id: int, title: string, description: string, category: string)

  /** "Meus Cursos": the fetched courses whose id is enrolled, in fetched order. */
  function EnrolledCourses(courses: seq<Course>, enrolled: seq<int>): (r: seq<Course>)
    ensures forall c :: c in r <==> c in courses && c.id in enrolled
    ensures forall c :: multiset(r)[c] == if c.id in enrolled then multiset(courses)[c] else 0
    ensures Seqs.IsSubseq(r, courses)
  {
    Seqs.Filter(courses, (c: Course) => c.id in enrolled)
  }

  /** "Cursos Disponíveis": the fetched courses whose id is not enrolled, in fetched order. */
  function AvailableCourses(courses: seq<Course>, enrolled: seq<int>): (r: seq<Course>)
    ensures forall c :: c in r <==> c in courses && c.id !in enrolled
    ensures forall c :: multiset(r)[c] == if c.id !in enrolled then multiset(courses)[c] else 0
    ensures Seqs.IsSubseq(r, courses)
  {
    Seqs.Filter(courses, (c: Course) => c.id !in enrolled)
  }

  /** The two lists partition the fetched courses: each course is in exactly one, and the lengths add up. */
  lemma CoursesPartition(courses: seq<Course>, enrolled: seq<int>)
    ensures forall c :: c in courses ==> (c in EnrolledCourses(courses, enrolled) <==> c !in AvailableCourses(courses, enrolled))
    ensures |EnrolledCourses(courses, enrolled)| + |AvailableCourses(courses, enrolled)| == |courses|
  {
    Seqs.FilterComplement(courses, (c: Course) => c.id in enrolled, (c: Course) => c.id !in enrolled);
  }

  /**
   `handleEnroll` and `handleApply`: with a token and a successful request
   the id is appended; without a token, or when the request fails, the
   list stays as it was.
   */
  function Record(token: Option<string>, ids: seq<int>, id: int, succeeded: bool): (r: seq<int>)
    ensures HasToken(token) && succeeded ==> |r| == |ids| + 1 && r[..|ids|] == ids && r[|ids|] == id
    ensures !(HasToken(token) && succeeded) ==> r == ids
    ensures forall x :: x in r <==> x in ids || (x == id && HasToken(token) && succeeded)
  {
    if HasToken(token) && succeeded then
      assert (ids + [id])[..|ids|] == ids;
      ids + [id]
    else ids
  }

  /** A successful enrolment moves exactly that course from the available list to the enrolled one. */
  lemma EnrolMovesOneCourse(courses: seq<Course>, enrolled: seq<int>, token: Option<string>, c: Course)
    requires HasToken(token)
    requires c in courses
    ensures var after := Record(token, enrolled, c.id, true);
            && c in EnrolledCourses(courses, after)
            && c !in AvailableCourses(courses, after)
            && forall d :: d in courses && d.id != c.id ==>
                 (d in EnrolledCourses(courses, after) <==> d in EnrolledCourses(courses, enrolled))
  {
  }

  /** The achievement thresholds, in display order. */
  const AchievementLevels: seq<int> := [1, 2, 5, 10]

  /** Which achievements show as unlocked for a level: those whose threshold it reaches. */
  function Unlocked(nivel: int): (r: seq<bool>)
    ensures |r| == |AchievementLevels|
    ensures forall i :: 0 <= i < |r| ==> (r[i] <==> nivel >= AchievementLevels[i])
    ensures forall i, j :: 0 <= i < j < |r| && r[j] ==> r[i]
  {
    seq(|AchievementLevels|, i requires 0 <= i < |AchievementLevels| => nivel >= AchievementLevels[i])
  }

  /** Reaching a higher level never locks an achievement again. */
  lemma UnlockedMonotone(a: int, b: int)
    requires a <= b
    ensures forall i :: 0 <= i < |AchievementLevels| && Unlocked(a)[i] ==> Unlocked(b)[i]
  {
  }

  datatype JobButton = JobButton(disabled: bool, caption: string)

  /** A job's button: disabled and reading "Candidatura Enviada" exactly when the job was applied to. */
  function ButtonFor(applied: seq<int>, jobId: int): (b: JobButton)
    ensures b.disabled <==> jobId in applied
    ensures b.caption == (if jobId in applied then "Candidatura Enviada" else "Candidatar-se")
  {
    if jobId in applied then JobButton(true, "Candidatura Enviada") else JobButton(false, "Candidatar-se")
  }

  /** After a successful application the job's button is disabled and every other job's is as before. */
  lemma ApplyDisablesOnlyThatJob(applied: seq<int>, token: Option<string>, jobId: int, other: int)
    requires HasToken(token)
    requires other != jobId
    ensures ButtonFor(Record(token, applied, jobId, true), jobId).disabled
    ensures ButtonFor(Record(token, applied, jobId, true), other) == ButtonFor(applied, other)
  {
  }

  datatype Post = Post(id: int, title: string, content: string, author: string, date: string, replies: int, likes: int)

  /** The forum view: the posts shown and the two inputs. */
  datatype ForumState = ForumState(posts: seq<Post>, title: string, content: string)

  /**
   The forum's `handleSubmit`. With a token and both inputs non-empty the
   post the API created goes first and the inputs are cleared; without
   them, or when the request fails (`created` is None), nothing changes.
   */
  function SubmitPost(st: ForumState, token: Option<string>, created: Option<Post>): (r: ForumState)
    ensures HasToken(token) && st.title != "" && st.content != "" && created.Some? ==>
              && |r.posts| == |st.posts| + 1
              && r.posts[0] == created.value
              && r.posts[1..] == st.posts
              && r.title == "" && r.content == ""
    ensures !(HasToken(token) && st.title != "" && st.content != "" && created.Some?) ==> r == st
  {
    if HasToken(token) && st.title != "" && st.content != "" && created.Some? then
      ForumState([created.value] + st.posts, "", "")
    else st
  }

  /**
   A submit applied to the current list never loses a post: the posts shown
   before are still shown, in the same order, and at most one post is added.
   */
  lemma SubmitKeepsEveryPost(st: ForumState, token: Option<string>, created: Option<Post>)
    ensures Seqs.IsSubseq(st.posts, SubmitPost(st, token, created).posts)
    ensures |SubmitPost(st, token, created).posts| <= |st.posts| + 1
  {
    var r := SubmitPost(st, token, created);
    Seqs.SubseqReflexive(st.posts);
    if r != st {
      assert r.posts[1..] == st.posts;
      Seqs.SubseqExtend(st.posts, r.posts);
    }
  }

  /**
   The write after the request is computed from the list the page was
   rendered with, not the current one. Two submits from the same render
   therefore end with the second write, which lacks the first new post.
   */
  lemma OverlappingSubmitsLoseAPost(st: ForumState, token: Option<string>, first: Post, second: Post)
    requires HasToken(token) && st.title != "" && st.content != ""
    requires first != second && first !in st.posts
    ensures first in SubmitPost(st, token, Some(first)).posts
    ensures first !in SubmitPost(st, token, Some(second)).posts
  {
    assert SubmitPost(st, token, Some(first)).posts[0] == first;
  }

  /**
   A submit rendered before the mount fetch answered writes over the
   fetched list: only the new post remains.
   */
  lemma SubmitBeforeFetchDropsFetched(title: string, content: string, token: Option<string>, created: Post, fetched: seq<Post>)
    requires HasToken(token) && title != "" && content != ""
    ensures SubmitPost(ForumState([], title, content), token, Some(created)).posts == [created]
    ensures forall p :: p in fetched && p != created ==> p !in SubmitPost(ForumState([], title, content), token, Some(created)).posts
  {
  }

  /** The four views a tab can show. */
  datatype View = ProfileView | CoursesView | ForumView | JobsView

  datatype Tab = Tab(id: string, caption: string, view: View)

  const Tabs: seq<Tab> := [
    Tab("profile", "Meu Perfil", ProfileView),
    Tab("courses", "Cursos", CoursesView),
    Tab("forum", "Fórum", ForumView),
    Tab("jobs", "Vagas", JobsView)
  ]

  const InitialTab := "profile"

  /** `tabs.find(tab => tab.id === activeTab)?.component`: the first tab with that id, if any. */
  function Displayed(tabs: seq<Tab>, activeTab: string): (r: Option<View>)
    ensures r.None? <==> forall i :: 0 <= i < |tabs| ==> tabs[i].id != activeTab
    ensures r.Some? ==> exists i :: 0 <= i < |tabs| && tabs[i].id == activeTab && tabs[i].view == r.value
                                    && forall j :: 0 <= j < i ==> tabs[j].id != activeTab
  {
    if |tabs| == 0 then None
    else if tabs[0].id == activeTab then Some(tabs[0].view)
    else
      var r := Displayed(tabs[1..], activeTab);
      assert forall i :: 1 <= i < |tabs| ==> tabs[i] == tabs[1..][i - 1];
      r
  }

  /** The portal opens on the profile, and each tab button shows its own view. */
  lemma TabsShowTheirViews()
    ensures Displayed(Tabs, InitialTab) == Some(ProfileView)
    ensures forall i :: 0 <= i < |Tabs| ==> Displayed(Tabs, Tabs[i].id) == Some(Tabs[i].view)
  {
    forall i | 0 <= i < |Tabs| ensures Displayed(Tabs, Tabs[i].id) == Some(Tabs[i].view) {
      var r := Displayed(Tabs, Tabs[i].id);
      var k :| 0 <= k < |Tabs| && Tabs[k].id == Tabs[i].id && Tabs[k].view == r.value;
    }
  }
}
