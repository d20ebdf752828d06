/** posts/serializers.py: the two projections of a post and the masking of
    a withdrawn owner's name. A serialized post is a JSON object, modelled as
    a map from field names to values. */
module PostSerializers {
  import opened Models

  datatype Json = JInt(i: int) | JStr(s: string) | JBool(b: bool) | JStamp(t: Stamp)

  type JsonObject = map<string, Json>

  /** The fixed display name shown for a withdrawn owner ("withdrawn user"). */
  const WithdrawnName: string := "탈퇴한 유저"

  /** PostListSerializer.Meta.fields */
  const ListFields: set<string> := {"id", "title", "creator", "view_count"}

  /** PostSerializer.Meta.fields */
  const DetailFields: set<string> :=
    {"id", "title", "content", "creator", "created_at", "updated_at", "view_count", "is_deleted"}

  /** get_creator, identical in both serializers: it looks only at the owner row. */
  function Creator(owner: User): string {
    if owner.isDeleted then WithdrawnName else owner.name
  }

  /** The owner's own name is shown exactly when the owner has not withdrawn
      (or happens to be called like the sentinel); a withdrawn owner always
      shows as the sentinel. */
  lemma CreatorMasksWithdrawn(owner: User)
    ensures owner.isDeleted ==> Creator(owner) == WithdrawnName
    ensures Creator(owner) == owner.name <==> !owner.isDeleted || owner.name == WithdrawnName
  {
  }

  /** PostListSerializer(post).data — never the content. */
  function ListItem(id: PostId, p: Post, owner: User): (r: JsonObject)
    ensures r.Keys == ListFields
    ensures "content" !in r
    ensures r["creator"] == JStr(Creator(owner))
    ensures r["id"] == JInt(id) && r["title"] == JStr(p.title) && r["view_count"] == JInt(p.viewCount)
  {
    map["id" := JInt(id), "title" := JStr(p.title), "creator" := JStr(Creator(owner)),
        "view_count" := JInt(p.viewCount)]
  }

  /** PostSerializer(post).data */
  function Detail(id: PostId, p: Post, owner: User): (r: JsonObject)
    ensures r.Keys == DetailFields
    ensures r["creator"] == JStr(Creator(owner))
    ensures r["id"] == JInt(id) && r["title"] == JStr(p.title) && r["content"] == JStr(p.content)
    ensures r["created_at"] == JStamp(p.createdAt) && r["updated_at"] == JStamp(p.updatedAt)
    ensures r["view_count"] == JInt(p.viewCount) && r["is_deleted"] == JBool(p.isDeleted)
  {
    map["id" := JInt(id), "title" := JStr(p.title), "content" := JStr(p.content),
        "creator" := JStr(Creator(owner)), "created_at" := JStamp(p.createdAt),
        "updated_at" := JStamp(p.updatedAt), "view_count" := JInt(p.viewCount),
        "is_deleted" := JBool(p.isDeleted)]
  }

  /** Both projections agree on every field they share, the creator included,
      and the list projection is the detail projection restricted to its fields. */
  lemma {:induction false} ProjectionsAgree(id: PostId, p: Post, owner: User)
    ensures ListFields < DetailFields
    ensures forall f :: f in ListFields ==> ListItem(id, p, owner)[f] == Detail(id, p, owner)[f]
  {
    var l, d := ListItem(id, p, owner), Detail(id, p, owner);
    assert "content" in DetailFields - ListFields;
    forall f | f in ListFields ensures l[f] == d[f] {
      assert f == "id" || f == "title" || f == "creator" || f == "view_count";
    }
  }
}
