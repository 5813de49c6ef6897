/** Checking a backup's catalogue against its publications (scripts/backup_server.py). */
module Backup {
  import opened Bytes
  import opened Storage
  import opened TaskModel
  import opened TaskSteps
  import opened TaskInvariants
  import opened TaskPreservation
  import opened TaskRuns
  import opened TaskHistories

  /** One catalogue row against the publication directory of its image. */
  predicate RowVerified(h: Hash, i: nat, image: Image, published: map<nat, Files>) {
    if image.deletedAt.Some? || image.status != ImageStatus.Ready then i !in published
    else
      && i in published
      && image.manifest.Some? && WellFormedManifest(image.manifest.value) && image.manifest.value.imageId == i
      && image.manifestSha256 == Some(h(image.manifest.value.text))
      && Verifies(h, image.manifest.value, published[i])
  }

  /** No row without its publication, no publication without its row, no file that fails its digest. */
  predicate CatalogVerified(h: Hash, images: seq<Image>, published: map<nat, Files>) {
    && (forall i :: 0 <= i < |images| ==> RowVerified(h, i, images[i], published))
    && forall i :: i in published ==> i < |images|
  }

  /** `verify_catalog`: every row, then every directory. */
  method VerifyCatalog(h: Hash, images: seq<Image>, published: map<nat, Files>) returns (ok: bool)
    ensures ok <==> CatalogVerified(h, images, published)
  {
    hide WellFormedManifest, Verifies;
    for i := 0 to |images|
      invariant forall k :: 0 <= k < i ==> RowVerified(h, k, images[k], published)
    {
      var row := images[i];
      if row.deletedAt.Some? {
        if i in published { return false; }
      } else if row.status != ImageStatus.Ready {
        if i in published { return false; }
      } else {
        if i !in published { return false; }
        if row.manifest.None? || !WellFormedManifest(row.manifest.value) { return false; }
        if row.manifest.value.imageId != i { return false; }
        if row.manifestSha256 != Some(h(row.manifest.value.text)) { return false; }
        var verified := ArtifactStore.VerifyArtifacts(h, row.manifest.value, published[i]);
        if !verified { return false; }
      }
    }
    var directories := published.Keys;
    while directories != {}
      invariant directories <= published.Keys
      invariant forall i :: i in published && i !in directories ==> i < |images|
      decreases directories
    {
      var i :| i in directories;
      if i >= |images| { return false; }
      directories := directories - {i};
    }
    return true;
  }

  /** A catalogue that agrees with the store passes, and one that passes has published exactly its usable images. */
  lemma AgreementIsVerified(h: Hash, s: State)
    ensures StoreMatchesImages(h, s) ==> CatalogVerified(h, s.images, s.store.published)
    ensures CatalogVerified(h, s.images, s.store.published) ==>
              forall i: nat :: i in s.store.published <==> i < |s.images| && InUse(s.images[i])
  {
    hide WellFormedManifest;
    if StoreMatchesImages(h, s) {
      forall i | 0 <= i < |s.images| ensures RowVerified(h, i, s.images[i], s.store.published) {
        assert ReadyOk(h, s, i);
      }
    }
    if CatalogVerified(h, s.images, s.store.published) {
      forall i: nat ensures i in s.store.published <==> i < |s.images| && InUse(s.images[i]) {
        if i < |s.images| { assert RowVerified(h, i, s.images[i], s.store.published); }
      }
    }
  }

  /**
   * What a passing check tells of every usable image: it is published, its manifest names it and has the recorded digest,
   * and every declared file is there with its length, digest and blocks. Nothing else is published.
   */
  lemma {:induction false} PassingMeans(h: Hash, images: seq<Image>, published: map<nat, Files>, i: nat)
    requires CatalogVerified(h, images, published)
    ensures i in published ==> i < |images| && InUse(images[i])
    ensures i < |images| && InUse(images[i]) ==>
              && i in published && images[i].manifest.Some? && images[i].manifest.value.imageId == i
              && images[i].manifestSha256 == Some(h(images[i].manifest.value.text))
              && forall a :: a in images[i].manifest.value.artifacts ==>
                   && a.path in published[i] && |published[i][a.path]| == a.sizeBytes && h(published[i][a.path]) == a.sha256
                   && (a.blocks.Some? ==> forall b :: b in a.blocks.value.blocks ==>
                         b.End() <= a.sizeBytes && h(published[i][a.path][b.offset..b.End()]) == b.sha256)
  {
    hide WellFormedManifest;
    if i < |images| {
      assert RowVerified(h, i, images[i], published);
      if InUse(images[i]) {
        forall a | a in images[i].manifest.value.artifacts && a.path in published[i] && a.blocks.Some?
          ensures forall b :: b in a.blocks.value.blocks ==>
                    b.End() <= |published[i][a.path]| && h(published[i][a.path][b.offset..b.End()]) == b.sha256
        {
          assert ArtifactVerified(h, a, published[i][a.path]);
          AllVerified(h, a.blocks.value, published[i][a.path]);
        }
      }
    }
  }

  /**
   * What a passing check is worth: a row with the recorded digest, and a directory that passes for it, hold the text and
   * the files that passed before, or two different byte strings share a digest.
   */
  lemma {:induction false} PassingIsUnaltered(h: Hash, i: nat, image: Image, published: map<nat, Files>,
                                              image': Image, published': map<nat, Files>)
    requires RowVerified(h, i, image, published) && RowVerified(h, i, image', published')
    requires InUse(image) && InUse(image') && image.manifestSha256 == image'.manifestSha256
    ensures image.manifest.value.text == image'.manifest.value.text || Collision(h)
    ensures image.manifest == image'.manifest ==>
              forall p :: p in published[i] && Declares(image.manifest.value, p) ==>
                p in published'[i] && (published[i][p] == published'[i][p] || Collision(h))
  {
    hide WellFormedManifest;
    forall p | image.manifest == image'.manifest && p in published[i] && Declares(image.manifest.value, p)
      ensures p in published'[i] && (published[i][p] == published'[i][p] || Collision(h))
    {
      var k: nat :| k < |image.manifest.value.artifacts| && image.manifest.value.artifacts[k].path == p;
      var a := image.manifest.value.artifacts[k];
      assert ArtifactVerified(h, a, published[i][a.path]) && ArtifactVerified(h, a, published'[i][a.path]);
    }
  }

  /** A backup taken at any point of a careful run verifies. */
  lemma {:induction false} CarefulBackupsVerify(cfg: Config, run: seq<Timed>, now: nat)
    requires Ordered(run, now) && WithoutBackup(run) && Carefully(cfg, EMPTY, run)
    ensures var s := Run(cfg, EMPTY, run); CatalogVerified(cfg.hash, s.images, s.store.published)
  {
    hide Inv, StoreMatchesImages, CatalogVerified, Run;
    EmptyIsInv();
    CatalogueAgrees(cfg, run, now);
    AgreementIsVerified(cfg.hash, Run(cfg, EMPTY, run));
  }
}
