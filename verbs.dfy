/** The verb table: every activity names one of these verbs by its numeric id. */
module Verbs {
  import opened Common

  datatype Verb = Verb(id: nat, infinitive: string, pastTense: string)

  const Follow := Verb(1, "follow", "followed")
  const Comment := Verb(2, "comment", "commented")
  const Love := Verb(3, "love", "loved")
  const Add := Verb(4, "add", "added")

  /** The exported id -> verb table, each verb keyed by its own id. */
  const Registry: map<nat, Verb> :=
    map[Follow.id := Follow, Comment.id := Comment, Love.id := Love, Add.id := Add]

  /** The regular English past tense: `d` after a final `e`, `ed` otherwise. */
  function RegularPast(infinitive: string): string {
    if infinitive != [] && infinitive[|infinitive| - 1] == 'e' then infinitive + "d" else infinitive + "ed"
  }

  /** Look a verb up by id; ids outside the table have no verb. */
  function Lookup(id: nat): (r: Option<Verb>)
    ensures r.Some? <==> id == 1 || id == 2 || id == 3 || id == 4
    ensures r.Some? ==> r.value.id == id && r.value.id < 1000
    ensures r.Some? ==> r.value.pastTense == RegularPast(r.value.infinitive)
  {
    if id in Registry then Some(Registry[id]) else None
  }

  /** The table holds exactly the four verbs, under pairwise distinct ids that fit three digits. */
  lemma RegistryShape()
    ensures Registry.Keys == {1, 2, 3, 4}
    ensures |Registry| == 4
    ensures forall id | id in Registry :: Registry[id].id == id && id < 1000
    ensures Registry.Values == {Follow, Comment, Love, Add}
  {
    assert Registry.Keys == {1, 2, 3, 4};
    assert |{1, 2, 3, 4}| == 4 by {
      assert {1, 2, 3, 4} == {1, 2, 3} + {4};
      assert {1, 2, 3} == {1, 2} + {3};
    }
    assert Registry[1] == Follow && Registry[2] == Comment && Registry[3] == Love && Registry[4] == Add;
  }

  /** Every registered verb pairs its infinitive with the regular past tense. */
  lemma PastTenses()
    ensures forall id | id in Registry :: Registry[id].pastTense == RegularPast(Registry[id].infinitive)
  {
    assert RegularPast("follow") == "followed";
    assert RegularPast("comment") == "commented";
    assert RegularPast("love") == "loved";
    assert RegularPast("add") == "added";
  }
}
