/** When a stored evidence row still speaks for its card. */
module Currency {
  import opened Wrappers

  /** evidence_transfer.md5_currency_q, and the second condition of image_evidence.current_evidence_queryset:
      a NULL on either side never excludes. */
  predicate Md5Current(stamp: Option<string>, card: Option<string>) { stamp.None? || card.None? || stamp == card }
}
