/** Announcements: an admin posts one; anyone, signed in or not, reads them newest first. */
module AnnouncementController {
  import opened Http
  import opened Listing
  import opened Db

  /** `createAnnouncement`: one row is appended and answered with 201. */
  method CreateAnnouncement(db: Database, title: string, message: string) returns (r: Result<Announcement>)
    requires db.Valid()
    modifies db`announcements
    ensures db.Valid()
    ensures var a := Announcement(|old(db.announcements)| + 1, title, message);
            db.announcements == old(db.announcements) + [a] && r == Ok(Created, a)
  {
    var a := Announcement(|db.announcements| + 1, title, message);
    db.announcements := db.announcements + [a];
    r := Ok(Created, a);
  }

  /** `getAllAnnouncements`: every announcement once, newest first. */
  function AllAnnouncements(announcements: seq<Announcement>): (r: seq<Announcement>)
    requires Increasing(announcements, AnnouncementId)
    ensures |r| == |announcements|
    ensures forall a :: a in r <==> a in announcements
    ensures Decreasing(r, AnnouncementId)
  {
    SelectAll(announcements, Always);
    NewestFirst(announcements, Always, AnnouncementId)
  }

  /** The announcement just posted heads the next listing, followed by the earlier listing unchanged. */
  lemma {:induction false} NewestHeadsListing(announcements: seq<Announcement>, a: Announcement)
    requires Increasing(announcements + [a], AnnouncementId)
    ensures Increasing(announcements, AnnouncementId)
    ensures AllAnnouncements(announcements + [a]) == [a] + AllAnnouncements(announcements)
  {
    var s := announcements + [a];
    forall i, j | 0 <= i < j < |announcements|
      ensures AnnouncementId(announcements[i]) < AnnouncementId(announcements[j])
    {
      assert announcements[i] == s[i] && announcements[j] == s[j];
    }
    SelectAll(s, Always);
    SelectAll(announcements, Always);
    calc {
      AllAnnouncements(s);
      Reverse(Select(s, Always));
      Reverse(s);
      { ReverseAppend(announcements, a); }
      [a] + Reverse(announcements);
      [a] + Reverse(Select(announcements, Always));
      [a] + AllAnnouncements(announcements);
    }
  }
}
