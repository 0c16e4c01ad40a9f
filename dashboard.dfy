/**
 * The admin's command centre: today's visitor and delivery counts, staff on
 * the premises, the latest entries, and the link (and QR code) that opens
 * this society's gate terminal.
 */
module Dashboard {
  import opened Wrappers
  import opened Types
  import opened Text
  import opened Lists
  import opened Store

  /** `s.split(c)[0]`: everything before the first `c`. */
  function BeforeFirst(s: string, c: char): (r: string)
    ensures r <= s && c !in r
    ensures |r| < |s| ==> s[|r|] == c
  {
    if s == [] || s[0] == c then [] else [s[0]] + BeforeFirst(s[1..], c)
  }

  /** `BeforeFirst` is the first piece `split` produces. */
  lemma {:induction false} BeforeFirstIsFirstPiece(s: string, c: char)
    ensures BeforeFirst(s, c) == Split(s, c)[0]
  {
    if s != [] && s[0] != c {
      BeforeFirstIsFirstPiece(s[1..], c);
    }
  }

  /** `s.replace(/\/+$/, '')`: drops the whole run of '/' at the end. */
  function StripTrailingSlashes(s: string): (r: string)
    ensures r <= s
    ensures r == [] || r[|r| - 1] != '/'
    ensures forall i :: |r| <= i < |s| ==> s[i] == '/'
  {
    if s != [] && s[|s| - 1] == '/' then StripTrailingSlashes(s[..|s| - 1]) else s
  }

  /** `s.replace(/^blob:/, '')`: drops one leading "blob:". */
  function StripBlobPrefix(s: string): (r: string)
    ensures StartsWith(s, "blob:") ==> s == "blob:" + r
    ensures !StartsWith(s, "blob:") ==> r == s
  {
    if StartsWith(s, "blob:") then
      assert s == s[..5] + s[5..];
      s[5..]
    else
      s
  }

  /** The base of the terminal link: trailing slashes removed, then a leading "blob:". */
  function NormalizeBase(s: string): (r: string)
    ensures var t := StripTrailingSlashes(s);
            && (StartsWith(t, "blob:") ==> t == "blob:" + r)
            && (!StartsWith(t, "blob:") ==> r == t)
    ensures r == [] || r[|r| - 1] != '/'
    ensures forall c :: c in r ==> c in s
  {
    var t := StripTrailingSlashes(s);
    var r := StripBlobPrefix(t);
    assert forall c :: c in t ==> c in s;
    if StartsWith(t, "blob:") then
      assert forall c :: c in r ==> c in t by {
        forall c | c in r ensures c in t { var i :| 0 <= i < |r| && r[i] == c; assert t[5 + i] == c; }
      }
      r
    else
      r
  }

  /** The base detected from the page address on mount: the address cut at
      the first '#', then at the first '?', then normalised. */
  function DetectBase(href: string): (r: string)
    ensures exists k :: 0 <= k <= |href| && '#' !in href[..k] && '?' !in href[..k]
                        && (k < |href| ==> href[k] == '#' || href[k] == '?')
                        && r == NormalizeBase(href[..k])
    ensures r == [] || r[|r| - 1] != '/'
  {
    var a := BeforeFirst(href, '#');
    var c := BeforeFirst(a, '?');
    assert c == href[..|c|];
    assert forall ch :: ch in c ==> ch in a;
    NormalizeBase(c)
  }

  const EntryRoute := "/#/entry?sid="

  /** `getTerminalLink`. */
  function TerminalLink(base: string, sid: SocietyId): (r: string)
    ensures r == "#" <==> sid == ""
  {
    if sid == "" then "#" else
      var r := NormalizeBase(base) + EntryRoute + sid;
      assert |r| > 1;
      r
  }

  /** A real terminal link is the normalised base, which does not end in '/',
      then the entry route, then the society id. */
  lemma TerminalLinkShape(base: string, sid: SocietyId)
    requires sid != ""
    ensures TerminalLink(base, sid) == NormalizeBase(base) + EntryRoute + sid
    ensures var b := NormalizeBase(base); b == [] || b[|b| - 1] != '/'
  {
  }

  /** `isBlobUrl`: the link starts with or contains "blob:"; the `startsWith`
      test is subsumed by `includes`. */
  predicate IsBlobUrl(link: string)
    ensures IsBlobUrl(link) <==> OccursIn("blob:", link)
  {
    var starts := StartsWith(link, "blob:");
    assert starts ==> OccursAt("blob:", link, 0);
    starts || Includes(link, "blob:")
  }

  /** What the copy button writes to the clipboard: nothing for the '#' placeholder. */
  function CopiedText(link: string): (r: Option<string>)
    ensures r.None? <==> link == "#"
    ensures r.Some? ==> r.value == link
  {
    if link == "#" then None else Some(link)
  }

  /** "Today's Visitors": the non-Delivery entries of the result, 0 without data. */
  function VisitorCount(data: Option<seq<VisitorEntry>>): (n: nat)
    ensures data.None? || data == Some([]) ==> n == 0
    ensures data.Some? ==> n <= |data.value|
  {
    match data
    case None => 0
    case Some(rows) => |Reject(rows, IsDelivery)|
  }

  /** "Deliveries Today": the Delivery entries of the result, 0 without data. */
  function DeliveryCount(data: Option<seq<VisitorEntry>>): (n: nat)
    ensures data.None? || data == Some([]) ==> n == 0
    ensures data.Some? ==> n <= |data.value|
  {
    match data
    case None => 0
    case Some(rows) => |Filter(rows, IsDelivery)|
  }

  /** Each of today's entries is counted exactly once, as a visitor or as a delivery. */
  lemma CountsPartition(data: Option<seq<VisitorEntry>>)
    ensures VisitorCount(data) + DeliveryCount(data) == |data.GetOr([])|
  {
    if data.Some? {
      FilterRejectLength(data.value, IsDelivery);
    }
  }

  /** One more row counts one more visitor or one more delivery, by its type. */
  lemma CountsCons(e: VisitorEntry, rows: seq<VisitorEntry>)
    ensures VisitorCount(Some([e] + rows)) == (if e.visitor_type == Delivery then 0 else 1) + VisitorCount(Some(rows))
    ensures DeliveryCount(Some([e] + rows)) == (if e.visitor_type == Delivery then 1 else 0) + DeliveryCount(Some(rows))
  {
    assert ([e] + rows)[0] == e && ([e] + rows)[1..] == rows;
  }

  function CreatedSince(midnight: Timestamp): VisitorEntry -> bool {
    (e: VisitorEntry) => e.created_at >= midnight
  }

  /** `.eq('society_id', sid).gte('created_at', midnight)`. */
  function TodaysEntries(t: Tables, sid: SocietyId, midnight: Timestamp): (r: seq<VisitorEntry>)
    ensures forall e :: e in r <==> e in t.visitors && e.society_id == sid && e.created_at >= midnight
  {
    Filter(Scoped(t.visitors, VisitorSociety, sid), CreatedSince(midnight))
  }

  predicate IsIn(s: Staff) {
    s.status == In
  }

  /** "Staff Currently In": this society's staff whose status is In. */
  function StaffInCount(t: Tables, sid: SocietyId): (n: nat)
    ensures t.staff == [] ==> n == 0
    ensures n <= |Scoped(t.staff, StaffSociety, sid)|
  {
    |Filter(Scoped(t.staff, StaffSociety, sid), IsIn)|
  }

  /** A staff row added to the table counts once more exactly when it is this
      society's and In. */
  lemma StaffInCountAppend(t: Tables, s: Staff, sid: SocietyId)
    ensures StaffInCount(t.(staff := t.staff + [s]), sid)
            == StaffInCount(t, sid) + (if s.society_id == sid && s.status == In then 1 else 0)
  {
    ScopedAppend(t.staff, s, StaffSociety, sid);
    FilterAppend(Scoped(t.staff, StaffSociety, sid), if s.society_id == sid then [s] else [], IsIn);
  }

  /** Recent Activity: this society's five newest entries, newest first. */
  function RecentEntries(t: Tables, sid: SocietyId): (r: seq<VisitorEntry>)
    ensures |r| == if |Scoped(t.visitors, VisitorSociety, sid)| < 5 then |Scoped(t.visitors, VisitorSociety, sid)| else 5
    ensures forall e :: e in r ==> e in t.visitors && e.society_id == sid
    ensures WellFormed(t) ==> Descending(r, VisitorTime)
    ensures WellFormed(t) ==>
              forall e :: e in t.visitors && e.society_id == sid && e !in r ==>
                |Scoped(t.visitors, VisitorSociety, sid)| > 5 && e.created_at < r[4].created_at
  {
    NewestFirstTake(t.visitors, VisitorSociety, sid, VisitorTime, 5);
    Take(NewestFirst(t.visitors, VisitorSociety, sid), 5)
  }

  /** Every one of this society's entries newer than the fifth most recent is among the five. */
  lemma RecentAreNewest(t: Tables, sid: SocietyId, e: VisitorEntry)
    requires WellFormed(t)
    requires e in t.visitors && e.society_id == sid
    requires |RecentEntries(t, sid)| == 5 && e.created_at > RecentEntries(t, sid)[4].created_at
    ensures e in RecentEntries(t, sid)
  {
    var all := NewestFirst(t.visitors, VisitorSociety, sid);
    NewestFirstDescending(t.visitors, VisitorSociety, sid, VisitorTime);
    assert e in all;
    var k :| 0 <= k < |all| && all[k] == e;
    if k >= 5 {
      assert false;
    }
    assert RecentEntries(t, sid)[k] == e;
  }

  datatype Stats = Stats(visitors: nat, deliveries: nat, staffIn: nat)

  class Console {
    const db: Db
    const societyId: SocietyId
    var stats: Stats
    var recentEntries: seq<VisitorEntry>
    var loading: bool
    var manualBaseUrl: string

    ghost predicate Valid()
      reads this, db
    {
      db.Valid()
    }

    /** The link shown under the QR code. */
    function GuardLink(): (r: string)
      reads this
      ensures r == "#" <==> societyId == ""
    {
      TerminalLink(manualBaseUrl, societyId)
    }

    /** Mounting the dashboard: the base is detected from the page address
        `href`; data is loaded only for a non-empty society id. */
    constructor (db: Db, societyId: SocietyId, href: string, midnight: Timestamp)
      requires db.Valid()
      ensures Valid()
      ensures this.db == db && this.societyId == societyId
      ensures manualBaseUrl == DetectBase(href)
      ensures societyId == "" ==> stats == Stats(0, 0, 0) && recentEntries == [] && loading
      ensures societyId != "" ==> Loaded(midnight)
    {
      this.db := db;
      this.societyId := societyId;
      manualBaseUrl := DetectBase(href);
      stats := Stats(0, 0, 0);
      recentEntries := [];
      loading := true;
      new;
      if societyId != "" {
        FetchDashboardData(midnight);
      }
    }

    /** The screen shows what the three queries return for `midnight`. */
    ghost predicate Loaded(midnight: Timestamp)
      reads this, db
    {
      var today := Some(TodaysEntries(db.t, societyId, midnight));
      && stats == Stats(VisitorCount(today), DeliveryCount(today), StaffInCount(db.t, societyId))
      && recentEntries == RecentEntries(db.t, societyId)
      && !loading
    }

    /** `fetchDashboardData`; `midnight` is the start of the current day. */
    method FetchDashboardData(midnight: Timestamp)
      requires Valid()
      modifies this
      ensures Valid()
      ensures Loaded(midnight)
      ensures stats.visitors + stats.deliveries == |TodaysEntries(db.t, societyId, midnight)|
      ensures manualBaseUrl == old(manualBaseUrl)
    {
      var today := Some(TodaysEntries(db.t, societyId, midnight));
      CountsPartition(today);
      stats := Stats(VisitorCount(today), DeliveryCount(today), StaffInCount(db.t, societyId));
      recentEntries := RecentEntries(db.t, societyId);
      loading := false;
    }

    /** The editable base-URL field. */
    method SetManualBaseUrl(url: string)
      requires Valid()
      modifies this
      ensures Valid()
      ensures manualBaseUrl == url
      ensures stats == old(stats) && recentEntries == old(recentEntries) && loading == old(loading)
    {
      manualBaseUrl := url;
    }

    /** COPY: the text placed on the clipboard, if any. */
    method CopyGuardLink() returns (copied: Option<string>)
      ensures copied.None? <==> societyId == ""
      ensures copied.Some? ==> copied.value == GuardLink()
    {
      copied := CopiedText(GuardLink());
    }
  }
}
