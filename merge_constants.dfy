/**
 * The generator's fixed tables of "this element was generated" markers:
 * comment tags for Java elements and id prefixes / ids for XML elements,
 * with the two membership queries built on them.
 */
module MergeConstants {
  import opened Strings

  /** Id prefixes that XML elements written by the generator's predecessors carry. */
  const OldXmlElementPrefixes: seq<string> := ["ibatorgenerated_", "abatorgenerated_"]

  /** The tag the current generator writes into the comment of each element it emits. */
  const NewElementTag: string := "@mbg.generated"

  /** Every comment tag, current and legacy, that marks an element as generated. */
  const OldElementTags: seq<string> :=
    ["@ibatorgenerated", "@abatorgenerated", "@mbggenerated", "autoGenerate", NewElementTag]

  /** Ids of the XML elements that older generators emitted without a prefix. */
  const OldXmlElementIds: set<string> := {
    "countByExample", "deleteByExample", "deleteByPrimaryKey", "insert",
    "insertSelective", "selectAll", "selectByExample", "selectByExampleWithBLOBs",
    "selectByPrimaryKey", "updateByExample", "updateByExampleSelective",
    "updateByExampleWithBLOBs", "updateByPrimaryKey", "updateByPrimaryKeySelective",
    "updateByPrimaryKeyWithBLOBs", "BaseResultMap", "ResultMapWithBLOBs",
    "Example_Where_Clause", "Base_Column_List", "Blob_Column_List",
    "Update_By_Example_Where_Clause"
  }

  /**
   * True when id starts with one of the legacy XML id prefixes; both are
   * sixteen characters long, so a shorter id never qualifies.
   */
  predicate IdStartsWithPrefix(id: string): (b: bool)
    ensures b ==> |id| >= 16
  {
    exists k :: 0 <= k < |OldXmlElementPrefixes| && StartsWith(id, OldXmlElementPrefixes[k])
  }

  /**
   * True when one of the generated-element tags occurs in comment; the
   * shortest tag, "autoGenerate", has twelve characters.
   */
  predicate CommentContainsTag(comment: string): (b: bool)
    ensures b ==> |comment| >= 12
  {
    exists k :: 0 <= k < |OldElementTags| && Contains(comment, OldElementTags[k])
  }

  /** The tag table; it is the very table CommentContainsTag searches. */
  function GetOldElementTags(): (tags: seq<string>)
    ensures |tags| == 5 && NewElementTag in tags
    ensures forall c :: CommentContainsTag(c) <==> exists k :: 0 <= k < |tags| && Contains(c, tags[k])
  {
    OldElementTags
  }

  /** CommentContainsTag tests exactly the five tags, no more and no fewer. */
  lemma CommentContainsTagIff(c: string)
    ensures CommentContainsTag(c) <==>
      Contains(c, "@ibatorgenerated") || Contains(c, "@abatorgenerated") ||
      Contains(c, "@mbggenerated") || Contains(c, "autoGenerate") ||
      Contains(c, "@mbg.generated")
  {
    if Contains(c, "@ibatorgenerated") { assert Contains(c, OldElementTags[0]); }
    if Contains(c, "@abatorgenerated") { assert Contains(c, OldElementTags[1]); }
    if Contains(c, "@mbggenerated") { assert Contains(c, OldElementTags[2]); }
    if Contains(c, "autoGenerate") { assert Contains(c, OldElementTags[3]); }
    if Contains(c, "@mbg.generated") { assert Contains(c, OldElementTags[4]); }
  }

  /** Any comment mentioning the current tag is recognised, because the current tag is in the table. */
  lemma NewTagRecognised(c: string)
    requires Contains(c, NewElementTag)
    ensures CommentContainsTag(c)
  {
    assert OldElementTags[4] == NewElementTag;
  }

  /** Each legacy tag is recognised. */
  lemma LegacyTagsRecognised(c: string)
    requires Contains(c, "@ibatorgenerated") || Contains(c, "@abatorgenerated") ||
             Contains(c, "@mbggenerated") || Contains(c, "autoGenerate")
    ensures CommentContainsTag(c)
  {
    CommentContainsTagIff(c);
  }

  /** Putting text before or after a recognised comment keeps it recognised. */
  lemma CommentContainsTagMonotone(p: string, c: string, s: string)
    requires CommentContainsTag(c)
    ensures CommentContainsTag(p + c + s)
  {
    var k :| 0 <= k < |OldElementTags| && Contains(c, OldElementTags[k]);
    ContainsWithin(p, c, s, OldElementTags[k]);
  }

  /** idStartsWithPrefix tests exactly the two legacy prefixes. */
  lemma IdStartsWithPrefixIff(id: string)
    ensures IdStartsWithPrefix(id) <==>
      StartsWith(id, "ibatorgenerated_") || StartsWith(id, "abatorgenerated_")
  {
    if StartsWith(id, "ibatorgenerated_") { assert StartsWith(id, OldXmlElementPrefixes[0]); }
    if StartsWith(id, "abatorgenerated_") { assert StartsWith(id, OldXmlElementPrefixes[1]); }
  }

  /** Both queries are false on the empty string: every tag and prefix is non-empty. */
  lemma EmptyIsNeverMarked()
    ensures !CommentContainsTag("") && !IdStartsWithPrefix("")
  {
    forall k | 0 <= k < |OldElementTags|
      ensures !Contains("", OldElementTags[k])
    {
      NotContainsLonger("", OldElementTags[k]);
    }
  }

  /** The legacy id set has 21 members; it holds "insert" and not "select". */
  lemma OldXmlElementIdsContents()
    ensures |OldXmlElementIds| == 21
    ensures "insert" in OldXmlElementIds && "select" !in OldXmlElementIds
  {
    OldXmlElementIdsCount();
    SelectIsNoLegacyId();
  }

  lemma OldXmlElementIdsCount()
    ensures |OldXmlElementIds| == 21
  {
    OldXmlElementIdsSplit();
    ShortIdsCount();
    LongIdsCount();
  }

  lemma SelectIsNoLegacyId()
    ensures "select" !in OldXmlElementIds
  {
    OldXmlElementIdsSplit();
    assert "select" !in LongIds;
  }

  // The id set split by length (at most 16 characters, at least 18), so
  // that its size can be counted in two small steps.
  ghost const ShortIds: set<string> := {
    "insert", "selectAll", "BaseResultMap", "countByExample", "deleteByExample",
    "insertSelective", "selectByExample", "updateByExample", "Base_Column_List",
    "Blob_Column_List"
  }
  ghost const LongIds: set<string> := {
    "deleteByPrimaryKey", "selectByPrimaryKey", "updateByPrimaryKey", "ResultMapWithBLOBs",
    "Example_Where_Clause", "selectByExampleWithBLOBs", "updateByExampleSelective",
    "updateByExampleWithBLOBs", "updateByPrimaryKeySelective", "updateByPrimaryKeyWithBLOBs",
    "Update_By_Example_Where_Clause"
  }

  lemma OldXmlElementIdsSplit()
    ensures OldXmlElementIds == ShortIds + LongIds
    ensures ShortIds !! LongIds
  {
    IdsSplitDisjoint();
  }

  lemma IdsSplitDisjoint()
    ensures ShortIds !! LongIds
  {
    assert forall x :: x in ShortIds ==> |x| <= 16;
    assert forall x :: x in LongIds ==> |x| >= 18;
  }

  lemma ShortIdsCount()
    ensures |ShortIds| == 10
  {
  }

  lemma LongIdsCount()
    ensures |LongIds| == 11
  {
  }
}
