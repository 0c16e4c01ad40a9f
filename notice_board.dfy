/**
 * The society notice board: the secretary drafts a notice from a topic with
 * the text generator, then posts it for every resident to read.
 */
module NoticeBoard {
  import opened Wrappers
  import opened Types
  import opened Lists
  import opened Store

  const DefaultTitle := "Important Update"
  const Author := "Society Secretary"

  /** `topic || 'Important Update'`. */
  function NoticeTitle(topic: string): (r: string)
    ensures r != ""
    ensures topic != "" ==> r == topic
    ensures topic == "" ==> r == DefaultTitle
  {
    if topic != "" then topic else DefaultTitle
  }

  /** `fetchNotices`: this society's notices, newest first. */
  function NoticesOf(t: Tables, sid: SocietyId): (r: seq<Notice>)
    ensures forall n :: n in r <==> n in t.notices && n.society_id == sid
    ensures WellFormed(t) ==> Descending(r, NoticeTime)
  {
    if WellFormed(t) then
      NewestFirstDescending(t.notices, NoticeSociety, sid, NoticeTime);
      NewestFirst(t.notices, NoticeSociety, sid)
    else
      NewestFirst(t.notices, NoticeSociety, sid)
  }

  /** A freshly posted notice heads the board, above everything posted before. */
  lemma PostedOnTop(t: Tables, n: Notice)
    ensures NoticesOf(t.(notices := t.notices + [n]), n.society_id) == [n] + NoticesOf(t, n.society_id)
  {
    NewestFirstAppend(t.notices, n, NoticeSociety, n.society_id);
  }

  class Board {
    const db: Db
    const societyId: SocietyId
    var notices: seq<Notice>
    var topic: string
    var isGenerating: bool
    var draft: string

    ghost predicate Valid()
      reads this, db
    {
      db.Valid() && !isGenerating
    }

    constructor (db: Db, societyId: SocietyId)
      requires db.Valid()
      ensures Valid()
      ensures this.db == db && this.societyId == societyId
      ensures notices == (if societyId != "" then NoticesOf(db.t, societyId) else [])
      ensures topic == "" && draft == ""
    {
      this.db := db;
      this.societyId := societyId;
      topic := "";
      draft := "";
      isGenerating := false;
      notices := [];
      if societyId != "" {
        notices := NoticesOf(db.t, societyId);
      }
    }

    /** The topic input. */
    method SetTopic(text: string)
      requires Valid()
      modifies this
      ensures Valid()
      ensures topic == text && draft == old(draft) && notices == old(notices)
    {
      topic := text;
    }

    /** DRAFT WITH AI; `generated` is the generator's reply, if any. Nothing
        happens without a topic. */
    method HandleDraft(generated: Option<string>)
      requires Valid()
      modifies this
      ensures Valid()
      ensures old(topic) == "" ==> draft == old(draft)
      ensures old(topic) != "" ==> draft == generated.GetOr("")
      ensures topic == old(topic) && notices == old(notices)
    {
      if topic == "" {
        return;
      }
      isGenerating := true;
      draft := generated.GetOr("");
      isGenerating := false;
    }

    /** POST: nothing happens without a draft; otherwise one notice is
        inserted, titled by the topic, and both fields are cleared. */
    method PostNotice()
      requires Valid()
      modifies this, db
      ensures Valid()
      ensures old(draft) == "" ==> db.t == old(db.t) && draft == old(draft) && topic == old(topic) && notices == old(notices)
      ensures old(draft) != "" ==>
                var n := Notice(old(db.t.serial), societyId, NoticeTitle(old(topic)), old(draft), Author, old(db.t.serial));
                && db.t == old(db.t).(notices := old(db.t.notices) + [n], serial := old(db.t.serial) + 1)
                && draft == "" && topic == ""
                && notices == [n] + NoticesOf(old(db.t), societyId)
    {
      if draft == "" {
        return;
      }
      var n := db.InsertNotice(societyId, NoticeTitle(topic), draft, Author);
      PostedOnTop(old(db.t), n);
      draft := "";
      topic := "";
      notices := NoticesOf(db.t, societyId);
    }
  }
}
