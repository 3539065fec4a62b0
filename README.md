# Jobster swipe: a Dafny model of its decision logic

Jobster is a job-matching web application. Job seekers swipe through job offers,
recruiters post and delete offers, and users sign up, log in and upload a CV. Almost
everything goes through a hosted backend (authentication, tables, file storage). This
project models the small amount of decision logic around those calls and proves
properties of it. Each backend call is replaced by the value it returns, passed in as
a parameter.

One module per source file:

- `JobCard` (`job_card.dfy`): the card's drag-end classifier and its two buttons. A
  drag further than 100 pixels right is `Right` (apply). A drag further than 100
  pixels left is `Left` (pass). Anything in between, including exactly +-100, is no
  swipe. The offset is a `real`.
- `SwipeQueue` (`swipe_queue.dfy`): the swipe page. The class `JobQueue` holds the
  offer list and `idx`. `Swipe` sets `idx` to `min(idx + 1, len - 1)` and reports
  whether the "application sent" notification fired. A ghost history of swipes ties
  `idx` to `IndexAfter(len, k)`, and lemmas prove that this equals `min(k, len - 1)`.
  So on a non-empty list the "no more offers" screen can never show.
- `Auth` (`auth.dfy`): the `useAuth` hook. `RedirectTarget` is the redirect effect.
  The class `AuthHook` holds `user`, `role` and `loading` and updates them in
  `CheckAuth` and `OnAuthStateChange`. Its invariant: a role is only held with a
  user, and a role is never `""`. JavaScript truthiness is written out: an empty
  required role counts as none, and `roles?.role || null` turns `""` into `null`.
- `RecruiterDashboard` (`recruiter_dashboard.dfy`): the active-offer count, the
  delete filter, and the class `Dashboard` with `FetchJobOffers` and `DeleteOffer`.
  A ghost log in `Dashboard` records the delete requests sent to the backend.
- `SignUp` (`sign_up.dfy`): the two ordered form checks, then `HandleSubmit`. It
  returns everything one submission does: the sign-up request, the role row
  inserted, the notification and the navigation.
- `CvManager` (`cv_manager.dfy`): the file guards, the storage path
  `userId + "/" + name` with its inverse `SplitPath`, and the class `CvPage` with
  its `isUploading` flag and `HandleFileUpload`.
- `Login` (`login.dfy`): the route is chosen from the account type alone.

`handleSwipe` clamps the index at `len - 1` (src/pages/Index.tsx:49). There is
no exhausted state, and a swipe on the last offer is not an error: it leaves that
offer shown and, for `Right`, fires the notification again. The lemmas
`SwipeQueue.IndexAfterInBounds` and `SwipeQueue.JobQueue.View` show that on a
non-empty list the "Plus d'offres disponibles" branch (src/pages/Index.tsx:67-71)
is dead code. The swipe threshold is the constant at src/components/JobCard.tsx:25,
modelled as `JobCard.Threshold`.

## Model

| member | source | states |
|---|---|---|
| JobCard.DragEnd | src/components/JobCard.tsx:24-31 | `Right` exactly when the offset is above +100, `Left` exactly when below -100, no swipe exactly when it lies in [-100, 100] (the bounds included); at most one swipe per drag |
| JobCard.Emit | src/components/JobCard.tsx:74-87 | "Passer" always emits `Left` and "Postuler" always `Right`; a drag end emits what `DragEnd` gives |
| JobCard.DragRightMonotone | src/components/JobCard.tsx:26-27 | a drag classified `Right` stays `Right` for every larger offset |
| JobCard.DragLeftMonotone | src/components/JobCard.tsx:28-29 | a drag classified `Left` stays `Left` for every smaller offset |
| JobCard.DragEndSymmetric | src/components/JobCard.tsx:25-30 | negating the offset swaps `Left` and `Right` and keeps a cancelled drag cancelled (the threshold is symmetric) |
| JobCard.ButtonsMatchFarDrags | src/components/JobCard.tsx:77-84 | each button gives the same decision as a drag beyond the threshold in its direction |
| SwipeQueue.SampleJobs | src/pages/Index.tsx:7-35 | the page's list holds three offers with distinct ids |
| SwipeQueue.Advance | src/pages/Index.tsx:49 | one swipe gives the minimum of `prev + 1` and `len - 1` |
| SwipeQueue.IndexAfterIsMin | src/pages/Index.tsx:38-49 | starting from 0, after `k` swipes in any directions the index is `min(k, len - 1)` |
| SwipeQueue.IndexAfterInBounds | src/pages/Index.tsx:61-71 | on a non-empty list the index always satisfies `0 <= idx < len`, so the card is shown and the exhausted message is unreachable |
| SwipeQueue.IndexAfterValid | src/pages/Index.tsx:38-49 | the index is never negative, and on a non-empty list it stays below the length |
| SwipeQueue.IndexAfterMonotone | src/pages/Index.tsx:49 | the index never decreases from one swipe count to a larger one |
| SwipeQueue.AdvanceAtLast | src/pages/Index.tsx:49 | at `idx == len - 1` a swipe leaves the index unchanged |
| SwipeQueue.AdvanceBeforeLast | src/pages/Index.tsx:49 | before the last offer a swipe moves exactly one offer on |
| SwipeQueue.JobQueue.constructor | src/pages/Index.tsx:38 | the index starts at 0 with no swipes handled |
| SwipeQueue.JobQueue.View | src/pages/Index.tsx:61-71 | a card for `jobs[idx]` exactly when `idx` is in range; on a non-empty list always a card |
| SwipeQueue.JobQueue.Swipe | src/pages/Index.tsx:40-50 | the notification fires exactly for `Right`; for both directions the index becomes `min(idx + 1, len - 1)` and stays in bounds; the swipe is appended to the history |
| Auth.StoredRole | src/hooks/useAuth.tsx:27 | the kept role is the fetched role when truthy and null otherwise, so it is never `""` |
| Auth.RedirectTarget | src/hooks/useAuth.tsx:55-63 | no redirect while loading; `/login` exactly when loaded without a user; `/` exactly when loaded with a user, a truthy required role and a different role; otherwise no redirect |
| Auth.MissingUserFirst | src/hooks/useAuth.tsx:57-60 | a missing user sends to `/login` whatever the role and the required role, so it takes priority over a role mismatch |
| Auth.MatchingRoleStays | src/hooks/useAuth.tsx:59 | a user whose role equals the required role is not redirected |
| Auth.AuthHook.constructor | src/hooks/useAuth.tsx:7-9 | the hook starts with no user, no role and `loading` set |
| Auth.AuthHook.Redirect | src/hooks/useAuth.tsx:55-63 | the redirect of the hook's current state: none while loading, `/login` once loaded without a user |
| Auth.AuthHook.CheckAuth | src/hooks/useAuth.tsx:13-34 | `loading` is false afterwards on every path; a session user is stored, with the truthy fetched role or null, or the old role when the role lookup threw; without a session user nothing else changes |
| Auth.AuthHook.OnAuthStateChange | src/hooks/useAuth.tsx:38-50 | the user becomes the session's user; no session clears the role; with a session the role is the stored fetched role (unchanged if the lookup threw); `loading` is untouched |
| Auth.SignedOutVisit | src/hooks/useAuth.tsx:13-63 | a page opened without a session redirects to `/login` once the check is done |
| Auth.SignOutAfterCheck | src/hooks/useAuth.tsx:38-63 | after a successful check the redirect depends only on the role match; after a sign-out event it is `/login` |
| RecruiterDashboard.ActiveOffers | src/pages/dashboard/RecruiterDashboard.tsx:38 | the filter keeps exactly the offers whose status is `active` and is no longer than the list |
| RecruiterDashboard.ActiveJobs | src/pages/dashboard/RecruiterDashboard.tsx:38 | the active count never exceeds the number of offers and is 0 exactly when no offer is active |
| RecruiterDashboard.ActiveJobsAppend | src/pages/dashboard/RecruiterDashboard.tsx:38 | the count of one list split into two parts is the sum of the two parts' counts |
| RecruiterDashboard.ActiveJobsAll | src/pages/dashboard/RecruiterDashboard.tsx:38 | the count equals the list length exactly when every offer is active |
| RecruiterDashboard.RemoveOffer | src/pages/dashboard/RecruiterDashboard.tsx:80 | after deleting `id` no offer with that id remains, every other offer is kept, and the list gets no longer |
| RecruiterDashboard.RemoveAbsentOffer | src/pages/dashboard/RecruiterDashboard.tsx:80 | deleting an id that no offer has leaves the list unchanged |
| RecruiterDashboard.RemoveOfferAppend | src/pages/dashboard/RecruiterDashboard.tsx:80 | deleting from a concatenation is deleting from each part, so the kept offers keep their relative order |
| RecruiterDashboard.RemoveOfferIdempotent | src/pages/dashboard/RecruiterDashboard.tsx:80 | deleting the same id twice leaves the list as after one delete |
| RecruiterDashboard.RemoveOfferActiveJobs | src/pages/dashboard/RecruiterDashboard.tsx:38-80 | a delete never increases the active-offer count |
| RecruiterDashboard.Dashboard.constructor | src/pages/dashboard/RecruiterDashboard.tsx:34-35 | the dashboard starts with no offers and `isLoading` set |
| RecruiterDashboard.Dashboard.FetchJobOffers | src/pages/dashboard/RecruiterDashboard.tsx:48-67 | returned rows replace the list (null rows give an empty list); a failure keeps the list and raises the error notification; `isLoading` is false on every path |
| RecruiterDashboard.Dashboard.DeleteOffer | src/pages/dashboard/RecruiterDashboard.tsx:69-93 | a declined confirmation changes nothing and sends no delete; a confirmed delete is sent; on success the offer is filtered out, on error the list is unchanged and the error notification is raised |
| SignUp.InitialForm | src/pages/auth/SignUp.tsx:14-18 | the account type defaults to `job-seeker` and the terms box to unticked |
| SignUp.Validate | src/pages/auth/SignUp.tsx:25-41 | the mismatch error exactly when the passwords differ; the terms error exactly when they match and the terms are not accepted; no error otherwise |
| SignUp.HandleSubmit | src/pages/auth/SignUp.tsx:22-81 | a form error gives its notification and no request; a valid form sends the sign-up; the role row is inserted exactly when a user comes back, with that user's id and the chosen type; navigation to `/dashboard/` + type exactly when the insert also succeeds; either error gives the generic error and no navigation; no error and no user gives no insert, no notification and no navigation |
| SignUp.MismatchReportedFirst | src/pages/auth/SignUp.tsx:25-41 | when both checks fail only the mismatch is reported |
| SignUp.DefaultTermsRejected | src/pages/auth/SignUp.tsx:18-41 | a form with matching passwords whose terms box keeps its default (unticked) gets the terms error |
| CvManager.StoragePath | src/pages/profile/CVManager.tsx:34 | the path is the user id, then `/`, then the file name |
| CvManager.SplitPath | src/pages/profile/CVManager.tsx:34 | splitting at the first `/` gives a folder without `/` and a name that rebuild the same path |
| CvManager.SplitStoragePath | src/pages/profile/CVManager.tsx:33-34 | for a user id without `/` the path splits back into that user id and file name |
| CvManager.StoragePathInjective | src/pages/profile/CVManager.tsx:33-34 | different users or different file names never get the same path |
| CvManager.CheckFile | src/pages/profile/CVManager.tsx:15-26 | no file is caught first, then any type other than `application/pdf`; only a PDF passes |
| CvManager.CvPage.constructor | src/pages/profile/CVManager.tsx:11 | the page starts with `isUploading` false |
| CvManager.CvPage.HandleFileUpload | src/pages/profile/CVManager.tsx:14-73 | no file does nothing; a non-PDF gives the type error, no upload and no change to `isUploading`; without a user nothing is uploaded; the upload goes to `userId/name`; the row is inserted exactly when the upload succeeds, with the user id, the public URL of that path and the file name; success is reported exactly when the insert succeeds and the error otherwise; `isUploading` is false after any attempt that passed the type check |
| Login.InitialForm | src/pages/auth/Login.tsx:12-14 | the account type defaults to `job-seeker` |
| Login.DashboardRoute | src/pages/auth/Login.tsx:28-32 | `/dashboard/job-seeker` exactly for `job-seeker`, `/dashboard/recruiter` for every other type |
| Login.HandleSubmit | src/pages/auth/Login.tsx:18-33 | the success notification always; one of the two dashboards, the job-seeker's exactly for that type |
| Login.RouteIgnoresCredentials | src/pages/auth/Login.tsx:18-32 | two forms with the same account type give the same outcome whatever their email and password |
| Login.DefaultTypeRoute | src/pages/auth/Login.tsx:14-29 | every form whose account type keeps its default leads to the job-seeker's dashboard |
| Login.LoginAgreesWithSignUp | src/pages/auth/Login.tsx:28-32 | for `job-seeker` and `recruiter`, login lands on the dashboard a successful sign-up of that type navigates to |

## Left out

- supabase/functions/analyze-cv/index.ts is not part of this model. It is an HTTP function that fetches the PDF and calls a third-party text-analysis service.
- src/pages/dashboard/AdminDashboard.tsx is not part of this model. Its counts come from the backend, and its recruiter/job-seeker split is floating-point example arithmetic.
- src/pages/dashboard/JobOfferManager.tsx is not part of this model. It inserts form fields and makes no decision beyond the backend call.
- The job-seeker dashboard, the chart, stat-card and offer-list components, and the route table in src/App.tsx are not part of this model. They are presentation, demo data, or routing done by a library.
- The backend client itself is not modelled. Each call is the value it returns, passed as a parameter. The public URL of a stored file is a function parameter, `publicUrl`.
- Asynchrony is not modelled. Each handler runs as one atomic step, so the initial check racing the session listener and the listener's unsubscription are out.
- The card's animation (`dragging`, drag constraints, scale) is out, because it only changes how the card looks.
- Notification titles, texts and styling are out. Each notification is a named value.
- The browser's own form validation is out. The `required` email and password inputs and the `type="email"` check block a submit before `handleSubmit` runs (src/pages/auth/Login.tsx:72,84; src/pages/auth/SignUp.tsx:120,132,144). `SignUp.HandleSubmit` and `Login.HandleSubmit` are modelled on every form, including ones the browser would stop.
- Offer descriptions are out, because they are display text. `console.error` logging and `preventDefault` are out too.
- The rows loaded by `fetchJobOffers` come sorted by `created_at` from the backend. The model takes their order as given.
- CvManager.CvPage.HandleFileUpload: the flag is `true` while the upload steps are awaited. The model states only the state after the attempt, because nothing in the code reads the flag in between except the disabled button. An `auth.getUser()` call that throws is treated the same as no user, since both end in the same error path.
- SwipeQueue.JobQueue.Swipe: a swipe requires a non-empty list. The handler is only reachable from a displayed card, so the model does not cover a swipe on an empty list.
